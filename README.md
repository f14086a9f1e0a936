# Study tracker core, modelled in Dafny

The study tracker is a desktop application for study spots. Each spot has a name, operating hours, a favourite flag and the hours studied there. This project models four pieces of its logic and proves what they promise.

- **The info display's pie chart** (`Ui.InfoDisplay`, with its definitions in `PieChartEdits`). The chart shows one slice per spot of the current top five. When the top five changes, `updatePieChart` edits the slice list in place:
  - it inserts newcomers before the first slice with strictly fewer hours;
  - it updates the values of spots that stayed;
  - it removes the slice of a spot that dropped out;
  - it finally sorts the chart by value, largest first.

  Every method of the class is proved to leave exactly the list that a pure definition in `PieChartEdits` gives. The properties are then proved about those definitions: placement and order of an insertion, sortedness, permutation, sizes, and the existence of the spot to remove.
- **Operating hours** (`Studyspot`). This is the validator, the constructor's weekday/weekend split, `toString`, `equals` and `emptyOperatingHours`. Java's `split(sep, 2)`, `trim` and the time pattern `([01]?[0-9]|2[0-3])[0-5][0-9]` are written out as functions. The accepted pieces are proved to be exactly the times `0000` to `2359`. The interval check that the code leaves commented out is modelled separately.
- **The log command parser** (`LogParser`). This is a decision function from what the argument tokenizer found to one of four log modes (plain log, override, reset, reset all) or a parse error.
- **The delete command** (`Commands`). `execute` runs over a study tracker that holds spots with unique names. It fails without any change for an unknown name. Otherwise it removes exactly that spot, taking it off the favourites first when it is one.

`wrappers.dfy` holds the `Option` and `Result` types.

Points where the code's behaviour is easy to misread:

- **Subset test.** The "same spots" step runs when every new spot is contained in the old top five: `isSameSpots` is a subset test, so a shorter new list passes it. The three steps are separate `if`s, each tested in turn.
- **Stale slices.** When the new top five is a sub-list of the old one, no slice is removed. A spot that left the top five therefore keeps its slice (`PieChartEdits.ContainedTopKeepsEverySlice`); see "## Findings".
- **Ties kept.** The final sort is stable with a non-strict order, so equal values stay in their earlier order (`PieChartEdits.SortDescIsStable`). It is not strictly descending.
- **Equality of spots vs. chart lookup.** In the info display, spots in the top-five lists are compared with `StudySpot.equals`. Chart lookup uses the slice's name. The two are kept apart: `SpotView.same` is an abstract relation next to `SpotView.name`. The delete command (`Commands`) instead compares its modelled spots by value, on name and favourite flag.

## Model

| member | source | states |
|---|---|---|
| PieChartEdits.Entries | src/main/java/seedu/address/ui/InfoDisplay.java:57-61 | one slice per spot, in the spots' order, carrying that spot's name and hours |
| PieChartEdits.Contains | src/main/java/seedu/address/ui/InfoDisplay.java:108 | List.contains under StudySpot.equals: never true of an empty list, and true when the first element is equal |
| PieChartEdits.AllContained | src/main/java/seedu/address/ui/InfoDisplay.java:200-209 | the subset test isSameSpots makes: true of an empty list, and only an empty list is contained in an empty top five |
| PieChartEdits.Total | src/main/java/seedu/address/ui/InfoDisplay.java:240-246 | the sum of studied hours is never negative |
| PieChartEdits.TotalIsZero | src/main/java/seedu/address/ui/InfoDisplay.java:76-78 | the total is zero exactly when every spot has zero hours, which is when the default message shows |
| PieChartEdits.TotalPrefix | src/main/java/seedu/address/ui/InfoDisplay.java:242-244 | every running sum is at most the total, so the int accumulator cannot overflow when the total fits |
| PieChartEdits.CountNewPrefix | src/main/java/seedu/address/ui/InfoDisplay.java:107-111 | a prefix of the new list has no more newcomers than the whole list |
| PieChartEdits.FirstSmaller | src/main/java/seedu/address/ui/InfoDisplay.java:183-189 | the insertion index: every earlier slice has at least the new hours, and the slice there has strictly fewer |
| PieChartEdits.Insert | src/main/java/seedu/address/ui/InfoDisplay.java:172-195 | the ordered insertion grows the chart by exactly one slice |
| PieChartEdits.InsertPlacement | src/main/java/seedu/address/ui/InfoDisplay.java:180-194 | the new slice sits right before the first strictly smaller slice, or at the end; removing it gives back the old chart, so the old slices keep their relative order |
| PieChartEdits.InsertSplit | src/main/java/seedu/address/ui/InfoDisplay.java:183-194 | insertion is the old chart cut at the insertion index with the new slice in between |
| PieChartEdits.InsertAtEnd | src/main/java/seedu/address/ui/InfoDisplay.java:192-194 | a slice no larger than every slice of the chart is appended at the end |
| PieChartEdits.InsertMultiset | src/main/java/seedu/address/ui/InfoDisplay.java:172-195 | insertion adds exactly the new slice and loses nothing |
| PieChartEdits.InsertKeepsSorted | src/main/java/seedu/address/ui/InfoDisplay.java:182-194 | inserting into a chart sorted largest first keeps it sorted, and slices of equal value stay ahead of the new one |
| PieChartEdits.NameIndex | src/main/java/seedu/address/ui/InfoDisplay.java:122-127 | the first slice with the given name: none before it has that name |
| PieChartEdits.SetValue | src/main/java/seedu/address/ui/InfoDisplay.java:122-127 | setPieValue on the first slice with the name: that slice takes the value; all names and all other slices stay; the chart is unchanged without such a slice |
| PieChartEdits.RemoveNamed | src/main/java/seedu/address/ui/InfoDisplay.java:145-150 | removing the first slice with the name takes out exactly that slice, and the rest close up in order; without such a slice nothing changes |
| PieChartEdits.AddNewcomers | src/main/java/seedu/address/ui/InfoDisplay.java:104-112 | adding the newcomers grows the chart by the number of new spots the old top five does not contain |
| PieChartEdits.UpdateValues | src/main/java/seedu/address/ui/InfoDisplay.java:117-129 | the same-spots step keeps the chart's length and every slice's name |
| PieChartEdits.UpdateValuesEffect | src/main/java/seedu/address/ui/InfoDisplay.java:117-129 | for spots with distinct names, the first slice named after each spot shows its hours |
| PieChartEdits.UpdateValuesKeepsOthers | src/main/java/seedu/address/ui/InfoDisplay.java:120-128 | a slice named after none of the spots keeps its value |
| PieChartEdits.UpdateValuesNoChange | src/main/java/seedu/address/ui/InfoDisplay.java:117-129 | when every named slice already shows its spot's hours, the same-spots step changes nothing |
| PieChartEdits.Refresh | src/main/java/seedu/address/ui/InfoDisplay.java:152-166 | the update-or-insert pass grows the chart by exactly the number of newcomers |
| PieChartEdits.HasVictim | src/main/java/seedu/address/ui/InfoDisplay.java:136-144 | some old spot is missing from the new list: only possible with a non-empty old top five, and certain when the new list is empty |
| PieChartEdits.FirstAbsent | src/main/java/seedu/address/ui/InfoDisplay.java:136-142 | the first old spot the new list lacks: every earlier old spot is contained, and such an index exists exactly when some old spot is missing |
| PieChartEdits.VictimName | src/main/java/seedu/address/ui/InfoDisplay.java:136-146 | the name the removal loop looks for is that of an old spot the new list does not contain |
| PieChartEdits.Overtake | src/main/java/seedu/address/ui/InfoDisplay.java:134-167 | the overtaking step removes at most the one slice named after that spot, then adds exactly the newcomers |
| PieChartEdits.CoveredListIsShorter | src/main/java/seedu/address/ui/InfoDisplay.java:137-144 | pigeonhole: a duplicate-free list contained in another list that has an extra member is strictly shorter |
| PieChartEdits.VictimExists | src/main/java/seedu/address/ui/InfoDisplay.java:144 | the assertion that a spot to remove was found always holds when the overtaking step runs, given that equality on spots is symmetric and transitive and the old top five has no duplicates |
| PieChartEdits.Cleared | src/main/java/seedu/address/ui/InfoDisplay.java:80-82 | the chart is emptied exactly when the new top five and the full list are both empty, and is otherwise kept |
| PieChartEdits.Overtaking | src/main/java/seedu/address/ui/InfoDisplay.java:92 | the overtaking step runs only with non-empty old and new top fives |
| PieChartEdits.Reconcilable | src/main/java/seedu/address/ui/InfoDisplay.java:80-94 | the asserts of the edit steps all hold; they always do when every new spot was in the old top five and the list did not grow |
| PieChartEdits.Reconciled | src/main/java/seedu/address/ui/InfoDisplay.java:80-94 | the chart after the clear, add, same-spots and overtaking steps, each under its condition; empty when the new top five and the full list are |
| PieChartEdits.ReconciledSize | src/main/java/seedu/address/ui/InfoDisplay.java:80-94 | a chart of at most five slices still has at most five after the edit steps |
| PieChartEdits.ContainedTopKeepsEverySlice | src/main/java/seedu/address/ui/InfoDisplay.java:88-94 | when every new spot was already in the old top five and the list did not grow, no slice is added or removed and every name stays |
| PieChartEdits.EntriesNameIndex | src/main/java/seedu/address/ui/InfoDisplay.java:122-127 | in the chart of spots with distinct names, each spot's name is first found at that spot's own slice |
| PieChartEdits.ReconcileSameIsNoOp | src/main/java/seedu/address/ui/InfoDisplay.java:84-94 | reconciling a top five against itself leaves the chart that shows it unchanged |
| PieChartEdits.SortDesc | src/main/java/seedu/address/ui/InfoDisplay.java:100 | the sort is a permutation of the chart |
| PieChartEdits.SortDescSorted | src/main/java/seedu/address/ui/InfoDisplay.java:99-100 | the sorted chart is ordered by value, largest first |
| PieChartEdits.SortedInit | src/main/java/seedu/address/ui/InfoDisplay.java:100 | dropping the last slice of a sorted chart keeps it sorted, and every slice kept is at least as large as the dropped one |
| PieChartEdits.TiesOfInsert | src/main/java/seedu/address/ui/InfoDisplay.java:183-194 | inserting into a sorted chart puts the new slice after every slice of its own value |
| PieChartEdits.SortDescIsStable | src/main/java/seedu/address/ui/InfoDisplay.java:100 | the sort is stable: for every value, the slices of that value leave the sort in the order they entered it |
| PieChartEdits.SortDescOfSorted | src/main/java/seedu/address/ui/InfoDisplay.java:100 | an already ordered chart is left as it is |
| PieChartEdits.StaleSliceOverflows | src/main/java/seedu/address/ui/InfoDisplay.java:84-94 | a top five of five that loses one spot keeps all five slices, while the intended chart has four; a next top five with a newcomer then breaks the assert of addNewSpotIntoPieChart |
| PieChartEdits.StaleSliceExample | src/main/java/seedu/address/ui/InfoDisplay.java:172-174 | one such sequence: [0,1,2,3,4], then [0,1,2,3], then [0,1,2,3,5] |
| PieChartEdits.ShowTopFive | src/main/java/seedu/address/ui/InfoDisplay.java:96-100 | the intended chart: one slice per spot of the new top five, each spot's slice present |
| PieChartEdits.ShowTopFiveFits | src/main/java/seedu/address/ui/InfoDisplay.java:96-100 | the intended chart has exactly one slice per spot, is a permutation of the spots' slices and is ordered largest first |
| PieChartEdits.SameTopShowsTopFive | src/main/java/seedu/address/ui/InfoDisplay.java:84-100 | when the new top five is the old list unchanged, the code as written shows the intended chart (a reordered or re-valued top five can differ in the order of tied slices) |
| Ui.InfoDisplay.constructor | src/main/java/seedu/address/ui/InfoDisplay.java:37-68 | builds one slice per top-five spot, in order; remembers the top five; shows the default message exactly when the total is zero; the hours label shows the total |
| Ui.InfoDisplay.UpdatePieChart | src/main/java/seedu/address/ui/InfoDisplay.java:73-102 | the chart becomes the sorted result of the edit steps, a permutation of the pre-sort contents and ordered largest first; it is empty when the new top five and the full list are; the new top five is remembered; the default message and the hours label follow the total |
| Ui.InfoDisplay.ReconcileTopFive | src/main/java/seedu/address/ui/InfoDisplay.java:80-94 | the edit steps before the sort: clearing, adding, updating and overtaking, each under its own condition against the old top five, leave exactly the reconciled chart |
| Ui.InfoDisplay.HandleAddingSpotIntoTopFive | src/main/java/seedu/address/ui/InfoDisplay.java:104-112 | the chart becomes the old chart with every newcomer inserted by the ordered rule, in list order |
| Ui.InfoDisplay.HandleSameSpots | src/main/java/seedu/address/ui/InfoDisplay.java:117-129 | the chart becomes the old chart with each spot's first named slice set to its hours |
| Ui.InfoDisplay.HandleOvertakingSpots | src/main/java/seedu/address/ui/InfoDisplay.java:134-167 | the chart loses the slice of the first old spot the new list lacks, then retained spots are updated and newcomers inserted |
| Ui.InfoDisplay.FindSpotToBeRemoved | src/main/java/seedu/address/ui/InfoDisplay.java:136-142 | the search loop returns the position of the first old spot the new list does not contain |
| Ui.InfoDisplay.RefreshSpots | src/main/java/seedu/address/ui/InfoDisplay.java:152-166 | the last loop of the overtaking step: update a retained spot's slice, insert any other spot |
| Ui.InfoDisplay.AddNewSpotIntoPieChart | src/main/java/seedu/address/ui/InfoDisplay.java:172-195 | the chart becomes the ordered insertion of the spot's slice into the old chart |
| Ui.InfoDisplay.SetFirstNamedValue | src/main/java/seedu/address/ui/InfoDisplay.java:122-127 | the inner search loop sets the value of the first slice with the name and stops |
| Ui.InfoDisplay.RemoveFirstNamed | src/main/java/seedu/address/ui/InfoDisplay.java:145-150 | the removal loop removes the first slice with the name and stops |
| Ui.InfoDisplay.IsSameSpots | src/main/java/seedu/address/ui/InfoDisplay.java:200-209 | true exactly when every spot of the list is contained in the remembered top five; true for an empty list |
| Ui.InfoDisplay.GetTotalStudiedHours | src/main/java/seedu/address/ui/InfoDisplay.java:240-246 | returns the sum of studied hours over the full list |
| Studyspot.IndexOf | src/main/java/seedu/address/model/studyspot/OperatingHours.java:65 | the first position of a character, or the length when it is absent |
| Studyspot.Split2 | src/main/java/seedu/address/model/studyspot/OperatingHours.java:65-66 | split with limit 2 gives one part exactly when the separator is absent; otherwise the part before the first separator and the rest, which join back to the input |
| Studyspot.LeadingSpaces | src/main/java/seedu/address/model/studyspot/OperatingHours.java:79 | the characters trim cuts at the front are all up to U+0020, and the next one is not |
| Studyspot.TrailingSpaces | src/main/java/seedu/address/model/studyspot/OperatingHours.java:80 | the characters trim cuts at the back are all up to U+0020, and the one before them is not |
| Studyspot.Trim | src/main/java/seedu/address/model/studyspot/OperatingHours.java:79-80 | trim returns text that neither starts nor ends with a character up to U+0020 |
| Studyspot.TrimCutsSpaces | src/main/java/seedu/address/model/studyspot/OperatingHours.java:79-80 | trim returns a slice of the input with only such characters cut off at either end |
| Studyspot.TrimKeepsAbsent | src/main/java/seedu/address/model/studyspot/OperatingHours.java:69-70 | trimming cannot bring in a character the text lacks |
| Studyspot.MatchesTimeRegex | src/main/java/seedu/address/model/studyspot/OperatingHours.java:19 | a match of the time pattern has three or four characters and ends in a digit |
| Studyspot.MatchedTimeIsDigits | src/main/java/seedu/address/model/studyspot/OperatingHours.java:19 | text matching the time pattern has three or four characters, all digits |
| Studyspot.IsValidTime | src/main/java/seedu/address/model/studyspot/OperatingHours.java:81-84 | a piece that passes the length check and the pattern is four digits |
| Studyspot.ValidTimeIsClockTime | src/main/java/seedu/address/model/studyspot/OperatingHours.java:81-84 | a piece passes the length and pattern test exactly when it is four digits with hour below 24 and minute below 60 |
| Studyspot.ValidTimeIsFormatted | src/main/java/seedu/address/model/studyspot/OperatingHours.java:19-20 | the accepted pieces are exactly the HHmm texts of the times 0000 to 2359 |
| Studyspot.TimeIntervalIsOrder | src/main/java/seedu/address/model/studyspot/OperatingHours.java:88-108 | on accepted pieces the interval check holds exactly when the times are equal or (end hour, end minute) is lexicographically greater |
| Studyspot.ParseDigits | src/main/java/seedu/address/model/studyspot/OperatingHours.java:98-99 | Integer.parseInt of k digits is below 10 to the power k |
| Studyspot.ParseTwoDigits | src/main/java/seedu/address/model/studyspot/OperatingHours.java:98-99 | Integer.parseInt of two digits is ten times the first plus the second |
| Studyspot.IsValidOperatingHour | src/main/java/seedu/address/model/studyspot/OperatingHours.java:73-86 | a valid range contains '-' and has at least nine characters |
| Studyspot.IsValidOperatingHours | src/main/java/seedu/address/model/studyspot/OperatingHours.java:60-71 | the sentinel is valid; any other valid text contains ',' and has at least nineteen characters |
| Studyspot.IsValidTimeInterval | src/main/java/seedu/address/model/studyspot/OperatingHours.java:88-108 | equal times give true; None, for the exception, only on a three-character time; two four-character times always give an answer |
| Studyspot.SplitAtFirst | src/main/java/seedu/address/model/studyspot/OperatingHours.java:74 | split with limit 2 cuts at the first separator |
| Studyspot.RangeAt | src/main/java/seedu/address/model/studyspot/OperatingHours.java:73-84 | one range is valid exactly when the trimmed texts around its first '-' are accepted times |
| Studyspot.HoursAt | src/main/java/seedu/address/model/studyspot/OperatingHours.java:60-71 | text other than the sentinel is valid exactly when the trimmed halves around its first ',' are valid ranges |
| Studyspot.NewOperatingHours | src/main/java/seedu/address/model/studyspot/OperatingHours.java:31-46 | the constructor rejects exactly the invalid texts, with the constraints message; it keeps the text; for the sentinel both halves are "-"; otherwise they are the trimmed texts before and after the first ',' |
| Studyspot.EmptyOperatingHours | src/main/java/seedu/address/model/studyspot/OperatingHours.java:132-134 | emptyOperatingHours() is what the constructor builds from "-" |
| Studyspot.ToString | src/main/java/seedu/address/model/studyspot/OperatingHours.java:111-116 | toString prints the sentinel exactly for the sentinel value |
| Studyspot.Equals | src/main/java/seedu/address/model/studyspot/OperatingHours.java:119-125 | equals holds exactly when value, weekdays and weekends all agree |
| Studyspot.EqualsIsSameText | src/main/java/seedu/address/model/studyspot/OperatingHours.java:119-130 | constructed operating hours are equal exactly when built from the same text, which agrees with hashCode on value |
| Studyspot.ConstructedHalves | src/main/java/seedu/address/model/studyspot/OperatingHours.java:40-44 | the constructor's halves are the trimmed parts of the split at the first ',' |
| Studyspot.ToStringOfConstructed | src/main/java/seedu/address/model/studyspot/OperatingHours.java:111-116 | toString of constructed hours other than the sentinel labels the trimmed weekday and weekend texts |
| Studyspot.SentinelIsAccepted | src/main/java/seedu/address/model/studyspot/OperatingHours.java:37-39 | "-" is valid, fills both halves with "-" and prints as "-" |
| Studyspot.NoCommaIsRejected | src/main/java/seedu/address/model/studyspot/OperatingHours.java:65-68 | text other than the sentinel without a ',' is invalid |
| Studyspot.HalfWithoutDashIsRejected | src/main/java/seedu/address/model/studyspot/OperatingHours.java:74-77 | a half around the first ',' that has no '-' makes the text invalid |
| Studyspot.RangeShape | src/main/java/seedu/address/model/studyspot/OperatingHours.java:81-84 | a range of accepted times has nine characters, no ',' and no space at either end |
| Studyspot.JoinedRanges | src/main/java/seedu/address/model/studyspot/OperatingHours.java:41-43 | two ranges joined by ", " split back into the ranges, and trimming removes the space |
| Studyspot.TrimUntouched | src/main/java/seedu/address/model/studyspot/OperatingHours.java:42 | trim leaves text with no space at its ends unchanged |
| Studyspot.TrimOneSpace | src/main/java/seedu/address/model/studyspot/OperatingHours.java:43 | trim removes one leading space |
| Studyspot.RangeIsAccepted | src/main/java/seedu/address/model/studyspot/OperatingHours.java:73-84 | "HHmm-HHmm" of accepted times is a valid range |
| Studyspot.FormatIsAccepted | src/main/java/seedu/address/model/studyspot/OperatingHours.java:60-85 | "HHmm-HHmm, HHmm-HHmm" of any four accepted times is valid, with no check that a range opens before it closes |
| Studyspot.FormatIsKept | src/main/java/seedu/address/model/studyspot/OperatingHours.java:41-43 | the constructor keeps the two ranges of that format as weekdays and weekends, and toString labels them |
| Studyspot.FormatByPosition | src/main/java/seedu/address/model/studyspot/OperatingHours.java:60-84 | a 20-character text with accepted times at the format's positions is valid |
| Studyspot.ExampleIsAccepted | src/test/java/seedu/address/logic/parser/ParserUtilTest.java:36 | "0900-2200, 0900-1800" is valid |
| Studyspot.UnorderedRangeIsAccepted | src/main/java/seedu/address/model/studyspot/OperatingHours.java:85 | "2200-0900, 0900-1800" is valid although the interval check refuses 2200-0900 |
| Studyspot.UnorderedIntervalIsRefused | src/main/java/seedu/address/model/studyspot/OperatingHours.java:97-101 | the interval check refuses 2200-0900, since the closing hour is earlier |
| Studyspot.TimeLiteral | src/main/java/seedu/address/model/studyspot/OperatingHours.java:81-82 | four digits with hour below 24 and minute below 60 pass the piece test |
| Studyspot.ShortTimesAreRejected | src/test/java/seedu/address/logic/parser/ParserUtilTest.java:29 | "9-10, 9-6" is invalid |
| Studyspot.ShortRangeIsRejected | src/main/java/seedu/address/model/studyspot/OperatingHours.java:79-81 | the range "9-10" fails on its one-character opening time |
| LogParser.ContainsText | src/main/java/seedu/address/logic/parser/LogCommandParser.java:29 | a text contains each of its prefixes, and never a longer text |
| LogParser.ContainsTextIsOccurrence | src/main/java/seedu/address/logic/parser/LogCommandParser.java:29 | args.contains(flag) holds exactly when the flag text starts at some position of args |
| LogParser.BadFormat | src/main/java/seedu/address/logic/parser/LogCommandParser.java:28-31 | the format check fails only without n/ or with a preamble, never when the text starts with the reset-all flag, and always without n/ when the text is shorter than that flag |
| LogParser.WithHours | src/main/java/seedu/address/logic/parser/LogCommandParser.java:55-57 | hours are parsed into a command with no reset modes, or the hours parser's error is passed on |
| LogParser.Parse | src/main/java/seedu/address/logic/parser/LogCommandParser.java:24-60 | the format check fails with the usage error; every command returned has at most one mode, carries hours exactly when it is neither reset nor reset all, and names the parsed n/ value exactly when there was one |
| LogParser.ResetIgnoresHours | src/main/java/seedu/address/logic/parser/LogCommandParser.java:44-45 | reset with a name gives a reset command with no hours and only reset set, and the h/ value makes no difference |
| LogParser.ResetAllWithOrWithoutName | src/main/java/seedu/address/logic/parser/LogCommandParser.java:48-49 | reset all gives a reset-all command, whether or not a name is present |
| LogParser.ResetAllAlone | src/main/java/seedu/address/logic/parser/LogCommandParser.java:28-31 | reset all needs neither n/ nor an empty preamble once the text holds the flag |
| LogParser.OverrideNeedsNameAndHours | src/main/java/seedu/address/logic/parser/LogCommandParser.java:46-57 | override with name and hours gives an override command with the parsed hours; missing either is the usage error |
| LogParser.OtherFlagsAreRejected | src/main/java/seedu/address/logic/parser/LogCommandParser.java:50-51 | reset without a name, override missing a field, or an unknown flag is the usage error |
| LogParser.NoFlagNeedsHours | src/main/java/seedu/address/logic/parser/LogCommandParser.java:55-59 | without a flag, hours give a plain log command with every mode off; no hours is the usage error |
| LogParser.NameErrorComesFirst | src/main/java/seedu/address/logic/parser/LogCommandParser.java:37-39 | a name the name parser refuses is reported before the flag is looked at |
| LogParser.NamelessPlainLog | src/main/java/seedu/address/logic/parser/LogCommandParser.java:28-57 | when the reset-all text occurs outside the flag, a plain log command without a name passes the format check |
| Commands.IndexOfName | src/main/java/seedu/address/logic/commands/DeleteCommand.java:34 | the first spot with the name: none before it has that name |
| Commands.IndexOfSpot | src/main/java/seedu/address/logic/commands/DeleteCommand.java:43 | the first occurrence of a spot: none before it equals it |
| Commands.FirstOccurrence | src/main/java/seedu/address/logic/commands/DeleteCommand.java:41 | a spot found at a position and nowhere before is first found there |
| Commands.RemoveAt | src/main/java/seedu/address/logic/commands/DeleteCommand.java:43 | deleting a position keeps the spots before it and shifts the later ones down by one |
| Commands.DeletedNameIsGone | src/main/java/seedu/address/logic/commands/DeleteCommand.java:39-44 | deleting the named spot keeps names unique, leaves no spot with that name and keeps every other spot |
| Commands.UnfavouriteThenDelete | src/main/java/seedu/address/logic/commands/DeleteCommand.java:39-44 | the favourite path, which swaps in the unfavourited copy and deletes it, removes the same position as the direct path |
| Commands.StudyTracker.constructor | src/main/java/seedu/address/logic/commands/DeleteCommand.java:32 | a tracker holds the given spots, whose names are unique |
| Commands.StudyTracker.FindStudySpot | src/main/java/seedu/address/logic/commands/DeleteCommand.java:34 | finds a spot exactly when one has the name, and the spot found has it |
| Commands.StudyTracker.RemoveStudySpotFromFavourites | src/main/java/seedu/address/logic/commands/DeleteCommand.java:40 | returns the unfavourited copy, which replaces the spot in place |
| Commands.StudyTracker.DeleteStudySpot | src/main/java/seedu/address/logic/commands/DeleteCommand.java:41-43 | removes the first occurrence of the spot |
| Commands.Execute | src/main/java/seedu/address/logic/commands/DeleteCommand.java:31-46 | an unknown name fails with InvalidName and leaves the tracker unchanged; a known one removes exactly that spot, favourite or not, keeps names unique and returns "Deleted study spot: " followed by the name |
| Commands.Equals | src/main/java/seedu/address/logic/commands/DeleteCommand.java:48-53 | equals holds exactly when the two commands are the same value, that is, name the same spot |
| Commands.EqualCommandsDeleteAlike | src/main/java/seedu/address/logic/commands/DeleteCommand.java:48-53 | two delete commands are equal exactly when their names are, and equal commands find the same spot |

## Findings

| source | as written | input that shows it | evidently intended | confidence | as-written member | corrected member |
|---|---|---|---|---|---|---|
| src/main/java/seedu/address/ui/InfoDisplay.java:84-94 | when every new spot was already in the old top five and the list did not grow, only values are updated, so the slice of a spot that left the top five stays; a later newcomer then needs a sixth slice and the assert at line 174 fails (with assertions off, a sixth slice is drawn) | top five [0,1,2,3,4]; spot 4 is deleted, giving [0,1,2,3] (five slices remain); spot 5 is added, giving [0,1,2,3,5] | the chart shows one slice per spot of the current top five, largest first | high, not executed | PieChartEdits.StaleSliceOverflows | PieChartEdits.ShowTopFive |

The class `Ui.InfoDisplay` keeps the code as written; `PieChartEdits.ShowTopFiveFits` proves the intended chart holds exactly one slice per spot, ordered largest first, and `PieChartEdits.SameTopShowsTopFive` shows the two agree when the new top five is the old list unchanged. They need not agree when the same spots come back reordered or re-valued: the code updates values in the old slice order and its stable sort keeps that order among tied values, while the intended chart keeps the new list's order among ties.

## Left out

- JavaFX rendering of the info display is not modelled: `addInteractivity`, the mouse handlers, label visibility, the start angle, `autosize` and FXML loading. What remains is the slice list, the remembered top five, the default-message text and the number the hours label shows.
- Pie values are `double` in JavaFX; here they are integers, since only whole studied hours are ever stored. The sort's comparator casts the difference of two values to `int`, which is exact for values between 0 and Integer.MAX_VALUE, so it is modelled as a plain comparison.
- Ui.InfoDisplay.GetTotalStudiedHours: does not model int overflow; callers must have a total of at most Integer.MAX_VALUE.
- Ui.InfoDisplay.UpdatePieChart: the `assert` statements of the Java methods are preconditions. `Reconcilable` states exactly when all of them hold: each insertion meets a chart of fewer than five slices, and the overtaking step finds a spot to remove. This precondition can be false in a reachable sequence of updates (see "## Findings"); runs with assertions switched off that go past a failing assert are not modelled.
- Ui.InfoDisplay: `topFiveSpots` and the list passed to `updatePieChart` are values. If a caller passed the very list object already remembered, the two would alias; that case is not modelled.
- In `PieChartEdits` and `Ui`, `StudySpot.equals` is not part of this model. It is an abstract relation, which `VictimExists` assumes to be symmetric and transitive. `Name.equals` on the chart side is string equality.
- PieChartEdits.UpdateValuesEffect: states the effect only for spots with distinct names. With two spots of one name, the later spot's hours overwrite the earlier's; `UpdateValues` still defines that exactly.
- Ui.InfoDisplay.ReconcileTopFive and Ui.InfoDisplay.FindSpotToBeRemoved are parts of `updatePieChart` and `handleOvertakingSpots` given a method of their own. The statements and their order are those of the Java methods.
- `LogParser`: `ArgumentTokenizer`, `ParserUtil.parseName`, `ParserUtil.parseStudiedHours`, the `LogCommand` flag constants and the usage message are not part of this model. The tokenizer's result is the input `ArgumentMultimap`, the two parsers are input functions that may fail, and the flags are the input `Flags`. `arePrefixesPresent(n/)` is taken to be the presence of an n/ value. Building and running the `LogCommand` are left out.
- `Commands`: the application's `Model` is not part of this model. `StudyTracker` stands in for it with the contracts the command relies on:
  - the tracker is a sequence of spots with unique names;
  - find is by name;
  - unfavouriting replaces the spot with its copy;
  - delete removes the spot. `deleteStudySpot` (through `List.remove`) finds the spot with value equality on the two modelled fields, name and favourite flag, which stands in for `StudySpot.equals`.

  Filtered lists, the favourites list and storage are left out. The text of `MESSAGE_INVALID_NAME` lives outside the command and is the error `InvalidName`. Other spot fields are left out, and so is `requireNonNull`.
- Studyspot.IsValidTimeInterval: `None` stands for the exception `substring(2, 4)` throws on a three-character time. The interval check is reachable only from the commented-out line, so nothing calls it.
- Regular expressions are not modelled in general. The one time pattern is a hand-written matcher, and `split` is modelled for its two one-character separators.
- `ExitCommand` and `ListCommand` are left out: they return constant results or make a single call into the `Model`.
