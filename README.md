# SmartSpend budget app: the `App` state, modelled in Dafny

SmartSpend is a budgeting app whose screen is built from the React
components of `lib/App_budget.tsx`. The file's `App` component holds the
app's state. Child components in the same file own further state: the new
and edit transaction modals own their form fields, the category picker owns
its name field, and the card swiper owns its `currentIndex`. This project
models that state handling:

- the state variables of `App`, as the fields of one class `AppState.App`;
- the state the children hand back to `App`: the edit modal's saved form,
  the picker's trimmed name, and the swiper's index (as the field
  `swiperIndex`);
- one method per state handler;
- the pure computations the handlers rely on:
  - the month view and its date-label grouping;
  - the category registry;
  - the two budget editors and the dash-joined field keys;
  - the swiper's walk through the pending card imports;
  - the amount-field cleanup of the transaction modals.

## Modules

- `Options` holds `Option`.
- `Seqs` holds `Array.prototype.filter` and first-occurrence key order.
- `Text` holds `trim`, `split`/`join` on one character, the amount cleanup, and decimal printing with `padStart`.
- `Calendar` holds dates as `Date` exposes them: the day before and after, the weekday, and the date label.
- `Months` holds the `monthMap` lookup and the three-month navigation window.
- `Ledger` holds transactions, the month filter, the grouping reduce, removal by id and the edit modal's copy.
- `Registry` holds subcategory add/delete, the picker's check and the expanded-category toggle.
- `Budgets` holds budget cells, the single-cell editor, the field keys, and the bulk editor's fill and write-back loops.
- `Swiper` holds the drag threshold and the deck of pending cards: as written, and head-first as intended.
- `AppState` holds the defaults, the mock card batch and the class `App`.

## Modelling choices

Object iteration order (`Object.entries`, `forEach` over an object) is a
nondeterministic choice: `CollectEditValues` and `SaveAll` pick the next key
with `:|`. Their contracts hold for every order. `SaveAll` is proved against
`Replayed`, the write-back of an arbitrary key sequence.

`App.Valid()` is the class invariant that every handler the app's UI calls
requires and keeps:

- the category keys are the four defaults;
- every bulk-editor field key contains a dash;
- the month on screen is one the navigation can reach;
- the swiper's index is 0 whenever the swiper is not mounted.

The first two facts make every field key read back as the cell it was made
from. So the bulk editor's result is exact for any iteration order.

`App.SwipeRight` and `App.SwipeLeft` are the exception. They are called only
from the swiper's `DragEnd`. A swipe that empties the pending list leaves a
non-zero index behind until `DragEnd` resets it, so only `DragEnd` requires
and ensures `Valid()`.

## Model

| member | source | states |
|---|---|---|
| Seqs.Filter | lib/App_budget.tsx:134 | The filtered list is never longer than its input. |
| Seqs.FilterContents | lib/App_budget.tsx:134 | The filter keeps exactly the elements the predicate accepts, each with its full multiplicity, and drops all others. |
| Seqs.FilterAppend | lib/App_budget.tsx:134 | Filtering a concatenation is the concatenation of the filtered parts, so kept elements keep their relative order. |
| Seqs.FilterNoDuplicates | lib/App_budget.tsx:266 | Filtering a repeat-free list gives a repeat-free list. |
| Seqs.Distinct | lib/App_budget.tsx:383-385 | The distinct values in first-occurrence order: the same values as the input, none repeated. |
| Text.TrimStart | lib/App_budget.tsx:1786 | The result is a suffix of the input, it drops only whitespace, and it does not start with whitespace. |
| Text.TrimEnd | lib/App_budget.tsx:1786 | The result is a prefix of the input, it drops only whitespace, and it does not end with whitespace. |
| Text.TrimBlank | lib/App_budget.tsx:1786 | `trim()` gives "" exactly when the input is all whitespace; otherwise neither end of the result is whitespace. |
| Text.TrimIdempotent | lib/App_budget.tsx:1786-1787 | Trimming a trimmed name changes nothing. |
| Text.Split | lib/App_budget.tsx:311 | `split('-')` yields at least one piece, no piece holds the separator, and there are at least two pieces when the input holds one. |
| Text.JoinSplit | lib/App_budget.tsx:311-313 | Joining the pieces of a split with the same separator restores the string. |
| Text.SplitAfterHead | lib/App_budget.tsx:311-313 | Splitting `head + '-' + tail`, where head has no dash, gives head followed by the pieces of tail. |
| Text.StripLeadingZeros | lib/App_budget.tsx:1279 | `replace(/^0+/, '')` drops exactly the leading zeros: a suffix of the input, preceded only by zeros, not starting with '0'. |
| Text.CleanAmount | lib/App_budget.tsx:1278-1281 | `handleAmountChange` always gives a non-empty string. It is "0" exactly when the input is all zeros. Otherwise it is the input without its leading zeros, starting with a non-zero character. |
| Text.CleanAmountIdempotent | lib/App_budget.tsx:1534-1537 | Cleaning an already cleaned amount changes nothing. |
| Text.Decimal | lib/App_budget.tsx:380 | `String(n)` of a day number is a non-empty string of digits. |
| Text.DecimalValue | lib/App_budget.tsx:380 | The digits of `String(n)` read back as `n`. |
| Text.PadZeros | lib/App_budget.tsx:380 | `padStart(w, '0')` has length max(w, \|s\|), ends with `s` and is zeros before it. |
| Text.PadZerosValue | lib/App_budget.tsx:1309 | Padding with zeros keeps a digit string's value. |
| Calendar.DaysIn | lib/App_budget.tsx:370-371 | Month lengths are 28 to 31 days, and 29 exactly for February of a Gregorian leap year. |
| Calendar.PrevDay | lib/App_budget.tsx:370-371 | `setDate(getDate() - 1)` gives a valid date different from the input, rolling over month and year ends. |
| Calendar.NextDay | lib/App_budget.tsx:370-371 | The following calendar day is a valid date different from the input. |
| Calendar.PrevNextInverse | lib/App_budget.tsx:370-371 | The day before and the day after are inverse on every date. |
| Calendar.Weekday | lib/App_budget.tsx:380 | `getDay()` is below 7; `WeekdayAnchors` and `WeekdayOfNextDay` pin it to the real calendar. |
| Calendar.WeekdayAnchors | lib/App_budget.tsx:380 | 1 January 1970 is a Thursday (4) and 1 November 2025 a Saturday (6). With the next-day step this fixes the weekday of every date. |
| Calendar.WeekdayOfNextDay | lib/App_budget.tsx:380 | Consecutive days have consecutive weekdays, wrapping Saturday to Sunday, across month, leap-day and year boundaries. |
| Calendar.DateLabel | lib/App_budget.tsx:366-381 | The label is "Today" exactly for today and "Yesterday" exactly for the previous day. Any other date gets the "<Weekday>, <DD> <Mon>" label. |
| Calendar.WeekdayLabelNotRelative | lib/App_budget.tsx:380 | An absolute label is never "Today" or "Yesterday". |
| Calendar.DayDigits | lib/App_budget.tsx:380 | The padded day has two digits and reads back as the day. |
| Calendar.WeekdayLabelInjective | lib/App_budget.tsx:1297-1311 | Two absolute labels are equal exactly when the dates share weekday, day of month and month. The year is not shown. |
| Calendar.TwoDaysAgoIsAbsolute | lib/App_budget.tsx:372-381 | The day before yesterday gets its absolute label. |
| Months.MonthIndex | lib/App_budget.tsx:351-356 | A name has a month index exactly when it is one of the twelve month names; the index is below 12 and names that month. |
| Months.MonthIndexOfName | lib/App_budget.tsx:351-354 | Each month name maps to its own position. |
| Months.PreviousMonth | lib/App_budget.tsx:334-340 | "Previous" keeps the month inside September–November. It moves exactly from November and October, so it is a no-op at September. |
| Months.NextMonth | lib/App_budget.tsx:342-348 | "Next" keeps the month inside September–November. It moves exactly from October and September, so it is a no-op at November. |
| Months.StepsAreOneMonth | lib/App_budget.tsx:334-356 | A step that moves changes the month index by exactly one: back lowers it, forward raises it. |
| Months.NavigationInverse | lib/App_budget.tsx:334-348 | A step that moved, followed by the opposite step, returns to the starting month. |
| Months.WindowEnds | lib/App_budget.tsx:334-348 | From inside the window, two steps back reach September and two steps forward reach November. |
| Ledger.MonthTransactions | lib/App_budget.tsx:350-362 | The month view holds exactly the entries whose month index and year match, each as often as in the ledger. |
| Ledger.MonthTransactionsAppend | lib/App_budget.tsx:358-361 | The month view of a concatenation is the concatenation of the month views, so ledger order is kept. |
| Ledger.MonthTransactionsPrepend | lib/App_budget.tsx:350-362 | An entry prepended to the ledger heads the month view exactly when it falls in that month; the rest of the view is unchanged. |
| Ledger.WithLabel | lib/App_budget.tsx:383-386 | A label's group holds exactly the transactions carrying that label. |
| Ledger.WithAbsentLabel | lib/App_budget.tsx:383-385 | A label no transaction carries has an empty group. |
| Ledger.WithLabelSnoc | lib/App_budget.tsx:386 | Appending a transaction extends its own label's group and no other. |
| Ledger.ReducedFaithful | lib/App_budget.tsx:366-388 | After any prefix, the reduce's accumulator holds the labels in first-occurrence order, and each label's bucket is its group in ledger order. |
| Ledger.AccumulateStep | lib/App_budget.tsx:383-387 | One step of the reduce keeps that accumulator invariant. |
| Ledger.GroupBy | lib/App_budget.tsx:366-388 | The loop yields one group per distinct label, in first-occurrence order, each holding exactly that label's transactions in ledger order. |
| Ledger.GroupByLabel | lib/App_budget.tsx:366-388 | The same, for the date labels relative to `today`. |
| Ledger.RemoveIdContents | lib/App_budget.tsx:244-255 | Removal by id leaves no entry with that id. Every other entry keeps its multiplicity, and the list does not grow. |
| Ledger.RemoveIdAt | lib/App_budget.tsx:244-255 | With distinct ids, removing the id of position k removes exactly that entry and keeps the order of the rest. |
| Ledger.EditedCopy | lib/App_budget.tsx:1539-1551 | The saved copy keeps the original's id and has no merchant or description. |
| Ledger.EditUntouched | lib/App_budget.tsx:1525-1551 | Saving the edit form untouched gives back the transaction, with the note defaulted and the import-only fields dropped. |
| Registry.WithSubcategory | lib/App_budget.tsx:119-127 | The name is appended to the category's list. The set of keys and every other category are unchanged. |
| Registry.WithoutSubcategory | lib/App_budget.tsx:129-137 | Every occurrence of the name leaves the category's list, and other names keep their multiplicity. The set of keys and every other category are unchanged. |
| Registry.AddThenDelete | lib/App_budget.tsx:119-137 | Deleting a name just added, which was not there before, restores the registry. |
| Registry.DeleteKeepsOrder | lib/App_budget.tsx:134 | Deletion filters the list before and after any position independently, so survivors keep their order. |
| Registry.PickedSubcategory | lib/App_budget.tsx:1785-1791 | The picker adds exactly when a category is expanded and the name is not blank. What it adds is `Trim(raw)` under the expanded key, and that name is non-empty with no whitespace at either end. |
| Registry.Toggled | lib/App_budget.tsx:263-269 | The toggled key is in the result exactly when it was not in the list. Other keys are unaffected, and a repeat-free list stays repeat-free. |
| Registry.ToggleTwice | lib/App_budget.tsx:263-269 | Toggling a collapsed category twice restores the list. |
| Budgets.WithBudgeted | lib/App_budget.tsx:277-293 | The edited cell gets the new budget and keeps its `spent`, or has none when the cell is new. A missing category or cell is created. Every other cell and category is unchanged. |
| Budgets.WithBudgetedTwice | lib/App_budget.tsx:277-293 | A second edit of the same cell overrides the first. |
| Budgets.SingleEditUntouched | lib/App_budget.tsx:271-293 | Opening an existing cell and saving without typing leaves the table unchanged, provided printed numbers parse back. |
| Budgets.TempKey | lib/App_budget.tsx:302 | A field key always contains a dash. |
| Budgets.KeyParts | lib/App_budget.tsx:311-313 | The category read from a key never contains a dash. |
| Budgets.TempKeyRoundTrip | lib/App_budget.tsx:302-313 | A field key reads back as its (category, subcategory) pair exactly when the category key has no dash. Dashes in the subcategory survive. |
| Budgets.KeyPartsInjective | lib/App_budget.tsx:311-313 | Two keys with a dash that read as the same cell are the same key. |
| Budgets.CollectEditValues | lib/App_budget.tsx:295-306 | For any iteration order, every registered cell has a field. Every field is the printed budget (0 when unset) of a registered cell with that key, and there are no other fields. |
| Budgets.EditValuesExact | lib/App_budget.tsx:295-306 | With dash-free category keys, each registered cell's field holds its own printed budget. |
| Budgets.EditValuesFields | lib/App_budget.tsx:295-306 | Every filled field key contains a dash, and with dash-free category keys every registered cell's field holds its own printed budget. |
| Budgets.WriteBack | lib/App_budget.tsx:314-322 | One write-back creates the category if missing and sets the cell to the new budget with its old spent, or 0. Every other cell is unchanged. |
| Budgets.SaveStep | lib/App_budget.tsx:310-323 | Writing back one more field keeps the save-all specification for the enlarged key set. |
| Budgets.ReplayedSaved | lib/App_budget.tsx:310-323 | Writing back any sequence of fields meets the save-all specification for the keys in it. |
| Budgets.SaveAll | lib/App_budget.tsx:308-327 | For any iteration order, existing categories are kept and a new category gets a cell. The cells are the old ones plus those named by a key. A named cell has the parsed text (0 if unparsable) of a field read as it, and spent = old spent or 0. Unnamed cells are unchanged. |
| Budgets.SaveAllExact | lib/App_budget.tsx:310-322 | When every key has a dash, each field's text lands in exactly the cell its key names. |
| Budgets.SaveAllFields | lib/App_budget.tsx:310-322 | The same, for every field at once. |
| Budgets.EditThenSave | lib/App_budget.tsx:295-327 | Entering edit mode and saving without typing (each printed budget parses back to itself; no category key has a dash): every registered cell keeps its budget (0 if none) and gets a spent (0 if none); other cells are untouched. |
| Swiper.Classify | lib/App_budget.tsx:2115-2125 | An offset beyond +100 accepts, beyond -100 edits, and anything within ±100 (the bounds included) does nothing. |
| Swiper.Shown | lib/App_budget.tsx:2067-2071 | The "All Done!" panel shows exactly when the index is past the list; otherwise the shown card is pending. |
| Swiper.SkipAhead | lib/App_budget.tsx:2067-2125 | As written, after k swipes the pending list is the odd-position cards below 2k followed by the list from 2k on, and the index is k. |
| Swiper.ShownAfterSwipes | lib/App_budget.tsx:2067-2125 | As written, after k swipes the card on screen is the one at position 2k, and the card at 2k-1 is still pending but skipped. |
| Swiper.EvenBatchStopsHalfway | lib/App_budget.tsx:2067-2110 | As written, a batch of 2m cards shows "All Done!" after m swipes with m cards still pending, none of them shown. |
| Swiper.HeadFirstReviewsAll | lib/App_budget.tsx:2115-2125 | With the index held at the head, k swipes leave the list from k on, and the shown card is the one at position k. "All Done!" appears exactly when every card has been swiped. |
| AppState.DefaultKeysDashFree | lib/App_budget.tsx:8-41 | The default registry has the four keys, and none of them contains a dash. |
| AppState.MockBatch | lib/App_budget.tsx:139-237 | The import loads eight card expenses with ids `stamp + "1"` … `stamp + "8"`, today's date and empty notes. |
| AppState.MockBatchDistinct | lib/App_budget.tsx:142-237 | The batch's ids are distinct. |
| AppState.MockBatchStopsHalfway | lib/App_budget.tsx:139-241 | As written, four swipes through a fresh batch reach "All Done!" with four cards still pending. |
| AppState.App.MonthView | lib/App_budget.tsx:350-364 | The month view holds exactly the ledger entries of the month and year on screen. |
| AppState.App.constructor | lib/App_budget.tsx:70-102 | The initial state: empty ledger and pending list, default categories and budgets, November 2025, every modal closed, swiper index 0. |
| AppState.App.SaveTransaction | lib/App_budget.tsx:109-112 | The new entry is prepended, the modal closes, and nothing else changes. |
| AppState.App.SelectCategory | lib/App_budget.tsx:114-117 | The selection is set and the picker closes. |
| AppState.App.AddSubcategory | lib/App_budget.tsx:119-127 | On a known key the name is appended to that list only. On an unknown key (a throw in the source) nothing changes. The budget table is untouched. |
| AppState.App.DeleteSubcategory | lib/App_budget.tsx:129-137 | On a known key the name is filtered out of that list only. On an unknown key nothing changes. The budget table is untouched. |
| AppState.App.AddFromPicker | lib/App_budget.tsx:1785-1791 | A blank name or no expanded category adds nothing. Otherwise the trimmed name is appended to the expanded category when it is a known key, and nothing changes (`ok` is false) when it is not. |
| AppState.App.ToggleCategory | lib/App_budget.tsx:263-269 | The key's expanded state flips. |
| AppState.App.ConnectCard | lib/App_budget.tsx:139-241 | The pending list becomes the batch, the card is connected and the swiper opens. A swiper that was not mounted shows the batch from index 0. |
| AppState.App.SwipeRight | lib/App_budget.tsx:244-248 | The card is prepended to the ledger, and every pending entry with its id is removed. |
| AppState.App.SwipeLeft | lib/App_budget.tsx:250-255 | The card goes to the edit slot and the modal opens. Every pending entry with its id is removed, and the ledger is untouched. |
| AppState.App.DragEnd | lib/App_budget.tsx:2115-2125 | The deck moves as the as-written swipe says. Right prepends the card to the ledger. Left puts it in the edit slot. Within the threshold nothing changes. |
| AppState.App.CloseSwiper | lib/App_budget.tsx:1075 | The swiper closes and its index resets, while pending cards stay. |
| AppState.App.SaveEditedTransaction | lib/App_budget.tsx:257-261 | The edited entry is prepended, and the modal closes and clears its slot. |
| AppState.App.SaveEditForm | lib/App_budget.tsx:1539-1551 | With the edit modal open on a card and an amount that does not read as 0, the ledger gains `EditedCopy` of that card and the form at its head, under the card's own id, and the modal closes. |
| AppState.App.CloseEditTransaction | lib/App_budget.tsx:1031-1034 | The edit modal closes and its card is dropped. |
| AppState.App.StartEditingBudget | lib/App_budget.tsx:271-275 | The cell opens with its printed budget (0 when unset). |
| AppState.App.SaveBudgetEdit | lib/App_budget.tsx:277-293 | With no cell open, nothing changes. Otherwise the cell gets the parsed text (0 if unparsable), keeps its spent, and the editor closes. |
| AppState.App.EnterEditMode | lib/App_budget.tsx:295-306 | Every registered cell gets a field holding its own printed budget, there are no other fields, and every field key contains a dash. |
| AppState.App.EditTempBudget | lib/App_budget.tsx:615-620 | The cell's field takes the typed text. |
| AppState.App.SaveAllBudgets | lib/App_budget.tsx:308-327 | The table meets the save-all specification, each field's text lands in exactly its own cell, and the editor closes with no fields. |
| AppState.App.CancelEditMode | lib/App_budget.tsx:329-332 | The editor closes, its fields are discarded and the table is kept. |
| AppState.App.GoToPreviousMonth | lib/App_budget.tsx:334-340 | The month steps back within the window. |
| AppState.App.GoToNextMonth | lib/App_budget.tsx:342-348 | The month steps forward within the window. |

## Left out

- JSX rendering, `motion`/`AnimatePresence` animation, styles and colour tables: presentation only.
- `Calendar` and `AnimatedBackground` are foreign components; `lib/components` is not part of this model.
- The `setTimeout` delay of the card-connection modal: timing only. Connecting is one instantaneous method.
- `Date.now()` ids and `new Date()`: nondeterministic, so they are the parameters `stamp` and `today`.
- AppState.MockBatch: `handleConnectCard` calls `Date.now()` once per card, so the eight stamps may differ. The model uses one `stamp` for all eight. The ids stay distinct either way, because each ends in its own digit.
- `parseFloat` and `Number.toString` are the abstract parameters `parse` (None for NaN) and `show`. Floating-point rounding, NaN and Infinity are not represented. Amounts and budgets are `real`.
- `toDateString` is modelled as equality of (year, month, day). Time of day and time zones are left out.
- `toLocaleDateString` in the swiper card: locale-dependent formatting.
- The hard-coded totals, the weekly summary cards and the summary step clamp: constants, not computations.
- The per-subcategory remaining/percentage display and the `|| '0'` display default of a bulk-editor field: rendering only.
- Modal-local form state (type, category, date and note pickers) is represented only by the `EditForm` value the edit modal saves. The new-transaction modal's transaction is a parameter of `SaveTransaction`.
- Open/close toggles of modals and tabs that set a single boolean (tabs, the summary, the new-transaction and card-connection modals) are not modelled.
- Budgets.SaveAll: `saveAllBudgets` copies the table shallowly and then assigns into the copied rows. In JavaScript that also mutates the row objects shared with the previous state. The model works on values, so this aliasing is not captured.
- Budgets.SaveAll: JavaScript enumerates integer-like keys first. The model allows any iteration order, which covers that ordering. When two keys read as the same cell, `SavedHits` says only that the budget comes from one of them, not which one.
- AppState.App.AddSubcategory / AppState.App.DeleteSubcategory: on an unknown category key the source throws a TypeError. The model reports `false` and changes nothing.
- AppState.App.SaveTransaction: the month-view effect of prepending is stated by `Ledger.MonthTransactionsPrepend`, not in the method's contract.
- AppState.App.SaveEditForm: requires what makes its button reachable: the modal's render condition (line 1030) and the enabled state of the button (line 1754). An amount that reads as NaN also leaves the button enabled, but NaN is not represented.
- Ledger.InitialForm: the edit modal holds the amount as `transaction.amount.toString()` and saves `parseFloat` of it; the form keeps the number itself, which is the same value because that round trip is exact for finite JavaScript numbers.
- AppState.App.DragEnd: requires a card on screen (`swiperIndex < |pendingTransactions|`). The source reads `transactions[currentIndex]` and renders the "All Done!" panel instead of a draggable card when there is none.
- AppState.MockBatch: the contract states the ids, kind, date and empty note of the eight cards. The amounts, merchants and descriptions are in its body but not in its contract.

## Findings

| source | as written | input that shows it | evidently intended | confidence | as-written member | corrected member |
|---|---|---|---|---|---|---|
| lib/App_budget.tsx:2115-2125 | Each swipe removes the swiped card from the parent's pending list (lines 247, 254) and also advances the swiper's `currentIndex` into that shrunken list. Only the cards at positions 0, 2, 4, … are shown. | The eight-card batch from `handleConnectCard`: after 4 swipes "All Done!" shows while the 4 cards at odd positions are still pending and were never shown. | Each card is reviewed once, in order: the index stays at the head while the list shrinks. | high (not executed) | Swiper.SkipAhead, AppState.MockBatchStopsHalfway | Swiper.HeadFirstReviewsAll |

`AppState.App.DragEnd` keeps the behaviour as written, because the class
models the handler itself. The head-first deck (`Swiper.SwipeHead`,
`Swiper.RunHead`) is the corrected behaviour, and the properties intended
for the review flow are proved about it.
