# Cash machine helper, modelled in Dafny

`CashMachineHelper` (CashMachine/CashMachineHelper.cs) is a small cash-machine routine.
Its constructor takes a collection of `BanknoteSet` values, each a `(Nominal, Count)` pair.
It pushes every individual note onto a private stack.
`CollectAmount(amount)` then searches a grid of cells `(x, y)`, with `x` as the outer loop.
For each cell it:

- rebuilds the stack in descending order, so the smallest note is on top;
- pops `y + 1` notes;
- takes the largest popped note not above the amount;
- keeps adding the largest popped note that fits under what is still missing, up to `x + 1` notes.

A combination that adds up to the amount is returned, grouped by nominal into `BanknoteSet`s.
A failed cell pushes every popped note back.
When no cell succeeds, the result is `null`.

The project models this core:

| file | module | what it holds |
|---|---|---|
| `wrappers.dfy` | `Wrappers` | `Option` (a nullable result) and `Result` (construction that can throw) |
| `banknote_set.dfy` | `BanknoteSets` | the `BanknoteSet` value and sums over lists of it (`Total`, `NoteCount`, `CountOf`) |
| `note_lists.dfy` | `NoteLists` | the list operations the method applies to notes: `OrderByDescending` (`SortDesc`), `Where(...).Max()` (`MaxAtMost`), `List.Remove` (`RemoveFirst`), `Sum` |
| `dispensing.dfy` | `Dispensing` | `CollectAmount` as functions of the notes in the stack: one cell (`Popped`, `Fill`, `Attempt`, `Cell`), the search over cells (`Search`, `Collect`), the grouping of the result (`GroupBy`, `Dispense`), and what a result means |
| `cash_machine_helper.dfy` | `CashMachine` | the class `CashMachineHelper`: its stack is a `seq<int>` field whose last element is the top, and the constructor and `CollectAmount` are methods with loops, each proved equal to the functions of `Dispensing` |
| `test_data.dfy` | `TestData` | the machine of CashMachine.Tests/CashMachineHelperTests.cs and its failing amounts, a small success worked through every cell, and an amount the search misses |

Three behaviours of the code a reader may not expect:

- **Which notes a cell pops.** The code sorts descending and then builds a `Stack` from that order. This puts the smallest note on top, so each cell pops the `y + 1` smallest notes, as the comment at CashMachine/CashMachineHelper.cs:48 intends (`Dispensing.TakesSmallest`).
- **The stack after a success.** The code returns from inside the cell (lines 97-103) before the push-back at lines 111-114. So after a success the stack is the sorted stack minus all `y + 1` popped notes, whether or not they were used (`CashMachine.CashMachineHelper.CollectAmount`).
- **Minimality and completeness.** The method's comment promises a combination with the minimal number of notes. The code does not deliver it. The greedy inside a cell gives up after its first choice of large notes. With the notes 3, 4, 5 and 6 in the stack and an amount of 13, every cell fails and the result is `null`. Yet 3 + 4 + 6 = 13 (`TestData.ThirteenMissed`, `TestData.ThirteenReachable`).

## Model

| member | source | states |
|---|---|---|
| NoteLists.Repeat | CashMachine/CashMachineHelper.cs:22-25 | the counting loop pushes exactly `max(Count, 0)` notes, each equal to the nominal |
| NoteLists.RepeatMultiset | CashMachine/CashMachineHelper.cs:22-25 | those notes are `max(Count, 0)` copies of the nominal and nothing else |
| NoteLists.SumConcat | CashMachine/CashMachineHelper.cs:97 | the sum of two lists of notes put together is the sum of their sums |
| NoteLists.SumOfMultiset | CashMachine/CashMachineHelper.cs:97 | `Sum()` depends only on which notes a list holds, not on their order |
| NoteLists.Insert | CashMachine/CashMachineHelper.cs:49 | inserting a note into a list adds exactly that note, and the first element is the note or the old first element |
| NoteLists.InsertDescending | CashMachine/CashMachineHelper.cs:49 | inserting into a descending list keeps it descending |
| NoteLists.SortDesc | CashMachine/CashMachineHelper.cs:49 | `OrderByDescending` is a rearrangement: same notes, same length |
| NoteLists.SortDescDescending | CashMachine/CashMachineHelper.cs:49 | the result of `OrderByDescending` is descending |
| NoteLists.DescendingUnique | CashMachine/CashMachineHelper.cs:49 | two descending lists of the same notes are equal, so sorting int keys does not depend on stability |
| NoteLists.SortDescOfPermutation | CashMachine/CashMachineHelper.cs:49 | sorting two orderings of the same notes gives the same stack, so a cell's outcome depends only on which notes the stack holds |
| NoteLists.MaxAtMostFits | CashMachine/CashMachineHelper.cs:60-64 | `Where(b => b <= bound).Max()` picks one of the notes, and that note is not above the bound |
| NoteLists.MaxAtMostLargest | CashMachine/CashMachineHelper.cs:60-64 | `Any()` is false exactly when every note is above the bound; otherwise the pick is at least every note not above the bound |
| NoteLists.IndexOfFirst | CashMachine/CashMachineHelper.cs:70 | the position `List.Remove` removes is the first occurrence of the note |
| NoteLists.RemoveFirstMultiset | CashMachine/CashMachineHelper.cs:70 | `List.Remove` of a present note takes away exactly one copy; removing an absent note changes nothing |
| Dispensing.FlattenSnoc | CashMachine/CashMachineHelper.cs:20-26 | each further set appends its own notes to those already pushed |
| Dispensing.FlattenCount | CashMachine/CashMachineHelper.cs:20-26 | the stack holds, for each nominal, exactly as many notes as the sets with that nominal count (positive counts only) |
| Dispensing.FlattenSum | CashMachine/CashMachineHelper.cs:20-26 | the notes pushed are worth the sum of nominal times `max(Count, 0)` over the sets |
| Dispensing.AddNoteFacts | CashMachine/CashMachineHelper.cs:99-102 | adding one note to a grouping keeps nominals distinct and sets non-empty, and raises that nominal's count, `Total` and the note count by exactly the note |
| Dispensing.GroupByFacts | CashMachine/CashMachineHelper.cs:99-102 | `GroupBy(b => b).Select(new BanknoteSet(Key, Count()))` gives distinct nominals and non-empty sets; each nominal's count equals its occurrences; the Total is the sum; the note count is the length |
| Dispensing.GroupByRoundTrip | CashMachine/CashMachineHelper.cs:99-102 | flattening the grouped sets gives back the grouped notes, up to order |
| Dispensing.PoppedAt | CashMachine/CashMachineHelper.cs:52-55 | popping `y + 1` notes yields `y + 1` notes, the i-th being the i-th from the top |
| Dispensing.PoppedMultiset | CashMachine/CashMachineHelper.cs:52-55 | the notes popped and the notes left are together the notes of the stack |
| Dispensing.TakesSmallest | CashMachine/CashMachineHelper.cs:49-55 | on the stack built from the descending order, a cell pops the smallest notes, smallest first, none larger than any note left |
| Dispensing.FillConserves | CashMachine/CashMachineHelper.cs:59-93 | the greedy moves notes from the working list into the combination and invents none |
| Dispensing.FillPrefix | CashMachine/CashMachineHelper.cs:73-93 | the combination only grows, and never past `x + 1` notes |
| Dispensing.FillWithinAmount | CashMachine/CashMachineHelper.cs:73-93 | a combination that starts at or below the amount never goes above it |
| Dispensing.FillFirstFits | CashMachine/CashMachineHelper.cs:59-67 | the first note chosen fits under the amount still missing |
| Dispensing.FillStops | CashMachine/CashMachineHelper.cs:73-93 | the greedy stops short of `x + 1` notes only when no working note fits under what is still missing (the `break`) |
| Dispensing.FillIdle | CashMachine/CashMachineHelper.cs:59-61 | when nothing is chosen, the working notes are untouched |
| Dispensing.RestoredMultiset | CashMachine/CashMachineHelper.cs:105-114 | the stack a failed cell leaves (its unpopped notes, then the greedy's leftovers, then the failed combination) holds exactly the notes the cell started from |
| Dispensing.AttemptSound | CashMachine/CashMachineHelper.cs:57-103 | a successful cell's combination adds up to the amount, holds 1 to `x + 1` notes, starts with a note not above the amount, and is drawn from the popped notes; the notes left over make up the rest |
| Dispensing.SearchFinds | CashMachine/CashMachineHelper.cs:43-46 | the nested loops end in a cell inside the grid, at or after where they started, whose outcome is the combination returned |
| Dispensing.SearchFirst | CashMachine/CashMachineHelper.cs:43-103 | the loops return from the first cell that succeeds: every cell visited before the winning one fails |
| Dispensing.SearchExhausted | CashMachine/CashMachineHelper.cs:43-139 | the loops run to the end only when every cell they visit fails |
| Dispensing.SearchSkips | CashMachine/CashMachineHelper.cs:43-46 | when every cell from `(x, y)` up to `(x2, y2)` fails, searching from `(x, y)` is searching from `(x2, y2)` |
| Dispensing.CellSound | CashMachine/CashMachineHelper.cs:48-103 | a successful cell lies inside the stack; its combination adds up to the amount with at most `x + 1` and at most `y + 1` notes; it and the notes left in the stack are drawn from the pool |
| Dispensing.CollectInGrid | CashMachine/CashMachineHelper.cs:43-46 | the winning cell has both coordinates below the number of notes |
| Dispensing.CollectFinds | CashMachine/CashMachineHelper.cs:36-103 | the winning combination is the outcome of its cell on the descending stack |
| Dispensing.CollectFirst | CashMachine/CashMachineHelper.cs:43-103 | every cell before the winning cell `(x, y)` fails, so no smaller cap `x + 1` (the promise of lines 30 and 96 that the code keeps) and no earlier row of the same cap gives a combination |
| Dispensing.CollectExhausted | CashMachine/CashMachineHelper.cs:138-139 | a `null` result means every cell of the grid fails |
| Dispensing.AllCellsFail | CashMachine/CashMachineHelper.cs:138-139 | conversely, when every cell of the grid fails the result is `null` |
| Dispensing.CollectSound | CashMachine/CashMachineHelper.cs:36-139 | the combination found adds up to the amount, has between 1 and `x + 1` (and at most `y + 1`) notes, and together with the stack left behind is drawn from the pool |
| Dispensing.FirstNoteFits | CashMachine/CashMachineHelper.cs:59-67 | the first note of a combination found is a note of the pool not above the amount |
| Dispensing.DispenseSound | CashMachine/CashMachineHelper.cs:29-35 | a non-null result is a list of sets with distinct nominals and at least one note each; its Total is the amount; no nominal is given out more often than the pool holds it; it holds between 1 and as many notes as the pool |
| Dispensing.AttemptWithinValue | CashMachine/CashMachineHelper.cs:57-103 | with no negative notes, a cell never reaches more than its popped notes are worth |
| Dispensing.PoppedWithinValue | CashMachine/CashMachineHelper.cs:52-55 | with no negative notes, the popped notes are worth no more than the whole stack |
| Dispensing.CollectAboveValue | CashMachine/CashMachineHelper.cs:138-139 | with no negative notes, an amount above the pool's value returns `null` |
| Dispensing.CollectBelowEveryNote | CashMachine/CashMachineHelper.cs:121-139 | when every note is above the amount, no cell finds a first note and the result is `null` |
| Dispensing.CollectIndivisible | CashMachine/CashMachineHelper.cs:138-139 | when every note is a multiple of some unit and the amount is not, the result is `null` |
| CashMachine.CashMachineHelper.constructor | CashMachine/CashMachineHelper.cs:13-27 | the stack holds the sets' notes in push order: each nominal `Count` times, set after set |
| CashMachine.CashMachineHelper.Create | CashMachine/CashMachineHelper.cs:13-18 | a null collection is refused (ArgumentNullException) and any other one gives a fresh helper with the flattened stack |
| CashMachine.CashMachineHelper.PushAll | CashMachine/CashMachineHelper.cs:111-114 | pushing a list puts its notes on top of the stack, in order |
| CashMachine.CashMachineHelper.CollectAmount | CashMachine/CashMachineHelper.cs:36-140 | the result is `Dispense` of the stack; after `null` the stack holds the same notes, in the order the last cell `(n - 1, n - 1)` pushed them back (`Restored`); after a success it is the sorted stack without the `y + 1` notes popped in the winning cell |
| CashMachine.CashMachineHelper.TryRow | CashMachine/CashMachineHelper.cs:46-135 | the inner loop either wins in some row of column `x` or continues the search with column `x + 1`; after a failed column the stack holds the same notes, as the column's last cell pushed them back (`Restored`) |
| CashMachine.CashMachineHelper.TryCell | CashMachine/CashMachineHelper.cs:48-134 | one cell's outcome is `Cell` of the sorted stack; a failure leaves exactly `Restored`: the sorted stack without the popped notes, then the greedy's leftover working notes, then the failed combination; a success leaves the sorted stack minus the popped notes |
| CashMachine.CashMachineHelper.SortStack | CashMachine/CashMachineHelper.cs:49 | rebuilding the stack leaves the descending order of its notes, the smallest on top |
| CashMachine.CashMachineHelper.SettleCell | CashMachine/CashMachineHelper.cs:57-134 | the cell's outcome is `Attempt` on the popped notes; a failure pushes the leftover working notes and then the failed combination on top of the stack, in that order, and so every popped note; a success pushes nothing |
| CashMachine.CashMachineHelper.PopNotes | CashMachine/CashMachineHelper.cs:52-55 | the notes popped, in order, and the stack without them |
| CashMachine.Greedy | CashMachine/CashMachineHelper.cs:57-93 | the loop computes the working notes left and the combination of `Fill` |
| TestData.MachineNotes | CashMachine.Tests/CashMachineHelperTests.cs:5-11 | every note of the test machine is 100, 50, 20 or 500 |
| TestData.MachineValue | CashMachine.Tests/CashMachineHelperTests.cs:5-11 | the test machine holds 2940 |
| TestData.TenFails | CashMachine.Tests/CashMachineHelperTests.cs:30 | 10 gives `null` on the test machine |
| TestData.OneElevenFails | CashMachine.Tests/CashMachineHelperTests.cs:31 | 111 gives `null` on the test machine |
| TestData.ThirtyFiveHundredFails | CashMachine.Tests/CashMachineHelperTests.cs:32 | 3500 gives `null` on the test machine |
| TestData.GiveAmountFails | CashMachine.Tests/CashMachineHelperTests.cs:29-39 | a fresh helper over the test machine returns `null` for 10, 111 and 3500 |
| TestData.SortedSeventy | CashMachine/CashMachineHelper.cs:49 | any stack holding one 20 and one 50 is rebuilt as 50, 20 |
| TestData.GreedySeventy | CashMachine/CashMachineHelper.cs:57-93 | on the popped notes 20, 50 and the amount 70, a cap of one note fails and a cap of two gives 50 then 20 |
| TestData.SeventyCells | CashMachine/CashMachineHelper.cs:43-103 | over the sorted notes 50, 20 for 70, cells (0, 0), (0, 1) and (1, 0) fail and cell (1, 1) gives 50, 20 |
| TestData.SeventyFound | CashMachine/CashMachineHelper.cs:43-103 | the search on any stack holding one 20 and one 50 wins in cell (1, 1) with 50, 20 |
| TestData.GroupSeventy | CashMachine/CashMachineHelper.cs:99-102 | grouping 50, 20 gives one 50 then one 20: two notes worth 70 |
| TestData.SmallSuccess | CashMachine.Tests/CashMachineHelperTests.cs:17-27 | `CollectAmount(70)` on any stack holding one 20 and one 50 returns one 50 and one 20 |
| TestData.GiveAmountSucceeds | CashMachine.Tests/CashMachineHelperTests.cs:17-27 | a helper built from one 20 and one 50 returns one 50 and one 20 for 70, and its stack is then empty |
| TestData.GreedyOnAll | CashMachine/CashMachineHelper.cs:57-93 | the attempt on the popped notes 3, 4, 5, 6 fails to make 13, whatever the cap `x` |
| TestData.ThirteenCell | CashMachine/CashMachineHelper.cs:43-134 | every cell over the sorted notes 6, 5, 4, 3 fails for 13 |
| TestData.SortedThirteen | CashMachine/CashMachineHelper.cs:49 | any stack holding 3, 4, 5 and 6 is rebuilt as 6, 5, 4, 3 |
| TestData.ThirteenReachable | CashMachine/CashMachineHelper.cs:29-35 | 13 can be paid from 3, 4, 5 and 6, with 3, 4 and 6 |
| TestData.ThirteenMissed | CashMachine/CashMachineHelper.cs:36-139 | yet `CollectAmount(13)` on any stack holding 3, 4, 5 and 6 returns `null` |

## Left out

- Dispensing.CollectSound: states soundness only (the right amount, notes drawn from the pool). The comment at CashMachine/CashMachineHelper.cs:29-35 also promises the minimal number of notes, which the code does not guarantee (see `TestData.ThirteenMissed`). What the code does keep, that no cell of a smaller cap succeeds, is `Dispensing.CollectFirst`.
- Dispensing.DispenseSound: states soundness only. The same comment promises `null` only when no combination exists, which `TestData.ThirteenMissed` refutes. What `null` does mean, that every cell of the grid fails, is `Dispensing.CollectExhausted` with its converse `Dispensing.AllCellsFail`.
- The `matrix` of combinations and its `null` resets (CashMachine/CashMachineHelper.cs:40, 57, 117, 130) are allocation bookkeeping. Only the current cell's combination is modelled.
- `int` overflow: sums are unbounded integers here. The source's LINQ `Sum()` over `int` throws `OverflowException` once a sum leaves 32 bits; that exception is not modelled.
- Any exception other than the constructor's `ArgumentNullException` is not modelled. The collection's own enumeration is modelled as a sequence.
- Thread safety and concurrent calls on one helper are not modelled; the class is not synchronised.
- The successful test amounts 400, 1190 and 130 (CashMachine.Tests/CashMachineHelperTests.cs:13-27) are not proved. Evaluating the search on the 24-note test machine is beyond what the verifier can unfold. The success path is shown instead on a two-note stack (`TestData.SmallSuccess`).
