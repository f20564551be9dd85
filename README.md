# Expense tracker ledger, modelled in Dafny

`expense-tracker.js` is a command-line expense tracker. It keeps one
**ledger** `{expenses, nextId, budgets}` in a JSON file. Each command:

1. reads the ledger;
2. checks its arguments;
3. changes the ledger in memory;
4. writes it back only if every check passed.

This project models the logic between the read and the write, and proves
what each command promises. The commands are:

- adding, updating and deleting expenses;
- listing them by category;
- totals for all expenses or for one month;
- per-category totals;
- the CSV export text;
- monthly budgets and the over-budget warning;
- the command-line option parser.

The modules follow the program's structure:

- `Values`: the entities. These are an `Expense` (id, date, description,
  amount, category), the errors each command reports, and the warning.
  `Arg<T>` is a command-line argument after `parseInt`/`parseFloat`:
  - `Missing` when the option was absent or empty, which JavaScript treats
    as falsy;
  - `Malformed` when parsing gave `NaN`;
  - `Given(v)` otherwise.

  Free-text options (description, category) are strings, with `""` for
  absent.
- `Text`: ASCII lower-casing, decimal and `YYYY-MM-DD` date text with their
  round trips, splitting a text into lines, and the `--` flag prefix.
- `Queries`: the read-only commands. `Where` is `filter`, `Total` is the
  `reduce` sum.
  - `ShowSummary` and `CheckBudget` are functions.
  - The per-category `forEach` (`TallyCategories`) and the CSV string loop
    (`ExportCsv`) are methods with loop invariants. Each is proved against
    a recursive specification function (`FirstSeen`/`CategoryTotal`,
    `CsvBody`).
- `Store`: the class `Ledger`, whose fields the commands update in place.
  - Its invariant `Valid()`:
    - ids strictly increase along the ledger;
    - every stored id lies in `[1, nextId)`;
    - every stored expense is well formed;
    - every budget is positive.
  - The ghost field `issued` records every id ever handed out, deleted ones
    included. This makes "a deleted id is never reused" a direct statement.
- `Args`: the `parseArgs` loop with its `i += 2` / `i--` stepping. It is
  proved equal to a recursive reading of the argument list.

The model takes the current date as a parameter (`today`), instead of
reading the clock. Amounts are exact reals.

Two details follow the code rather than the commands' documented intent:

- `checkBudget` skips a budget of exactly 0 as well as a missing one
  (expense-tracker.js:243).
- The budget month defaults to the current one when it is absent or 0
  (expense-tracker.js:239).

## Model

| member | source | states |
|---|---|---|
| Store.Ledger.constructor | expense-tracker.js:10-13 | a new ledger has no expenses, next id 1, no budgets, and satisfies the ledger invariant |
| Store.Ledger.Add | expense-tracker.js:35-65 | succeeds exactly when the description is non-empty and the amount parses to a positive number. A missing description or amount is `MissingField`; an amount that is NaN or ≤ 0 is `NonPositiveAmount`. On failure the ledger is untouched and nothing is checked. On success exactly one expense is appended, with id = old next id, today's date, and category "Uncategorized" when none is given. The next id goes up by one and budgets are unchanged. The new id was never issued before and exceeds every stored id. The warning is the budget check for today's month on the new ledger. The invariant is kept |
| Store.Ledger.Update | expense-tracker.js:68-90 | succeeds exactly when the id is found and the amount is absent or positive. An unknown id is `NotFound`; a bad amount is `NonPositiveAmount`. Both leave the ledger untouched. For a bad amount this holds even though the description was already assigned in memory, since that copy is never written back. On success only the found position changes, to the expense with the non-empty fields overwritten (id and date kept). Next id, budgets and issued ids are unchanged, and an update with no fields changes nothing |
| Store.Ledger.Delete | expense-tracker.js:93-105 | reports `NotFound` exactly when no expense has the id, and then changes nothing. Otherwise it removes exactly the expense with the id and keeps the others in order. It never changes the next id or the issued ids, so the deleted id is never handed out again |
| Store.Ledger.SetBudget | expense-tracker.js:202-231 | succeeds exactly when the month is an integer in 1..12 and the amount is positive. The month is checked first (`BadMonth`), then the amount (`NonPositiveBudget`), and a failure changes nothing. On success only the key (current year, month) is set, replacing any earlier value, and expenses stay the same. A warning is returned exactly when that month's total exceeds the new budget |
| Store.IndexOfId | expense-tracker.js:70 | the position of the first expense whose id equals the parsed id, or none when no expense has it (a NaN id matches nothing) |
| Store.RemoveById | expense-tracker.js:96-98 | on a ledger with increasing ids, filtering out an id removes exactly the expense found for it and keeps the rest in order, or leaves the ledger as it is when none has it. So "length unchanged" is the same as "not found" |
| Store.RemoveAt | expense-tracker.js:96 | filtering out the id found at position k gives the ledger without position k |
| Store.WhereDropsOne | expense-tracker.js:96 | a filter that keeps everything but one element removes exactly that element |
| Queries.WhereMembers | expense-tracker.js:113 | an expense is selected exactly when it is in the ledger and satisfies the filter |
| Queries.WhereIndices | expense-tracker.js:113 | the filter result is the subsequence of the ledger taken at increasing positions, holding every kept position: filters keep the original order |
| Queries.WhereConcat | expense-tracker.js:113 | filtering a concatenation filters each part in turn |
| Queries.ListExpenses | expense-tracker.js:108-119 | with no category, the whole ledger. With one, the expenses whose category equals it ignoring case, each once, taken at strictly increasing positions of the ledger that cover every matching position, so in ledger order; an empty answer is not an error |
| Queries.ListIgnoresCase | expense-tracker.js:113 | two category filters that differ only in letter case list the same expenses in the same order |
| Queries.TotalConcat | expense-tracker.js:149 | the sum over a concatenation is the sum of the parts' sums |
| Queries.TotalSplit | expense-tracker.js:142-152 | the total of the kept expenses and the total of the dropped ones add up to the total of all |
| Queries.WhereTotalBounded | expense-tracker.js:142-152 | with positive amounts, a filtered total lies between 0 and the total of all expenses |
| Queries.TotalPositive | expense-tracker.js:152 | with positive amounts, the total is ≥ 0, and > 0 when there is any expense |
| Queries.ShowSummary | expense-tracker.js:130-155 | fails with `BadMonth` exactly when a month is given and is not an integer in 1..12. With no month, the total of every expense; with a valid month, the total of that month in the current year. An empty ledger totals 0, and with positive amounts the answer is between 0 and the total |
| Queries.CheckBudget | expense-tracker.js:234-255 | the month defaults to the current one. A warning is returned exactly when a non-zero budget exists for (current year, month) and that month's total strictly exceeds it; the warning carries that total and that budget |
| Queries.MonthTotalAppend | expense-tracker.js:245-250 | a new expense adds its amount to its own month's total and to no other month |
| Queries.WarningPersists | expense-tracker.js:56-64 | adding an expense with a positive amount never clears a warning, and the warned total never drops |
| Queries.FirstSeen | expense-tracker.js:160-167 | the category list has no more entries than the ledger, and is non-empty when the ledger is |
| Queries.FirstSeenMentions | expense-tracker.js:160-167 | a category is listed exactly when some expense carries it |
| Queries.FirstSeenDistinct | expense-tracker.js:163-164 | no category is listed twice |
| Queries.FirstSeenPrefix | expense-tracker.js:175 | later expenses never reorder the categories already listed: the keys keep first-seen order |
| Queries.CategoryTotalAbsent | expense-tracker.js:163-164 | a category no expense carries has total 0 |
| Queries.SumOfTotalsAppend | expense-tracker.js:179 | over distinct categories, one more expense raises the sum of their totals by its amount exactly when its category is among them |
| Queries.CategoryTotalsAddUpStep | expense-tracker.js:179 | one more expense keeps the category totals adding up to the ledger total |
| Queries.CategoryTotalsAddUp | expense-tracker.js:179 | the per-category totals, summed in key order, equal the total of all expenses |
| Queries.TallyStep | expense-tracker.js:162-167 | one `forEach` step keeps the tally exact: keys are the first-seen categories so far, and each value is that category's total so far |
| Queries.TallyCategories | expense-tracker.js:160-167 | after the loop, the keys are the ledger's categories, each once, in first-seen order, and each value is the sum of that category's amounts |
| Queries.CategorySummary | expense-tracker.js:158-181 | none ("no expenses") exactly for an empty ledger. Otherwise one entry per category in first-seen order holding its total, and a grand total equal to the sum of all amounts |
| Queries.CsvBodyAppend | expense-tracker.js:193-195 | one more expense appends exactly its row and a newline to the CSV body |
| Queries.CsvBodyLines | expense-tracker.js:192-195 | with single-line fields, the CSV body splits into exactly one line per expense, in ledger order |
| Queries.CsvTextLines | expense-tracker.js:192-195 | with single-line fields, the exported text is the header line and then one row per expense |
| Queries.ExportCsv | expense-tracker.js:184-195 | none ("no expenses to export") exactly for an empty ledger. Otherwise the header `ID,Date,Description,Amount,Category`, a newline, and each expense's row (id, date, quoted description, amount, category) with a newline, in ledger order. With single-line fields its lines are the header and one row per expense |
| Text.NatTextRoundTrip | expense-tracker.js:194 | an id's decimal text reads back as the same id |
| Text.DateText | expense-tracker.js:29-32 | a date's text is ten characters with dashes at positions 4 and 7 |
| Text.DateRoundTrip | expense-tracker.js:143-144 | a stored `YYYY-MM-DD` date reads back as the same year, month and day |
| Text.LinesOfLine | expense-tracker.js:192-194 | a line without a newline, followed by a newline and more text, is the first line of the whole |
| Text.JoinedAppend | expense-tracker.js:193-195 | joining one more line appends exactly that line and its newline |
| Text.JoinedLines | expense-tracker.js:192-195 | lines without newlines, joined and then split again, give the same lines back |
| Text.StripDashes | expense-tracker.js:264 | a flag starting with `--` loses exactly that prefix, and any word loses either nothing or two characters |
| Text.StripDashesNone | expense-tracker.js:264 | a word in which `--` does not occur is left unchanged |
| Text.StripDashesFirst | expense-tracker.js:264 | when `--` first occurs at position k, exactly those two characters are removed and the text on both sides is kept |
| Args.OptionsKeepKeys | expense-tracker.js:266 | an option, once read, is never dropped by later ones |
| Args.OptionValuesAreNotFlags | expense-tracker.js:265 | no option value starts with `--` |
| Args.FlagsBecomeKeys | expense-tracker.js:263-270 | every `--flag` word after the command becomes a key: no flag is swallowed as the value of the one before |
| Args.ParseArgs | expense-tracker.js:258-273 | the command is the first word. The options are those of the recursive reading of the remaining words, no value is itself a flag, and every flag word becomes a key |

## Left out

- File I/O and JSON are not modelled: reading, writing, `JSON.parse`/`stringify`, and writing the CSV file. The ledger is a class whose fields the commands update; the CSV command returns its text.
- Store.Ledger.constructor: models only the fresh ledger. Finding an existing file and keeping it is I/O.
- Console output and formatting are not modelled: `padEnd`, `toFixed`, month names, the help text. The model returns values and error datatypes in their place.
- The clock is a parameter: the current date, year and month are `today`.
- The mismatch between the UTC date from `toISOString` and the local `getMonth`/`getFullYear` is not modelled. Stored dates are parsed as UTC and read in local time, so near a month boundary an expense can count toward a neighbouring month. This is timezone behaviour outside the model.
- Floating point is not modelled. Amounts are exact reals, and `reduce` sums are exact.
- `parseFloat`/`parseInt` text parsing is not modelled: arguments arrive already parsed as `Arg` values.
- Number-to-text in the CSV row is the parameter `amountText`.
- Text.Lower: lower-cases ASCII letters only; JavaScript's full Unicode `toLowerCase` is not modelled.
- Queries.TallyCategories: keys are in first-seen order. JavaScript lists integer-like keys (such as "10") first in ascending order, and treats keys inherited from the object prototype specially; both are not modelled.
- Args.ParseArgs: every flag becomes a key of the options map, and Args.FlagsBecomeKeys says so too. In JavaScript, assigning to the key `__proto__` (from the word `--__proto__`) creates no own key. `main` never reads that key, so the difference cannot be observed.
- Queries.CsvTextLines: the one-line-per-expense result holds only when no field contains a line break. The source escapes nothing, so a quote or comma inside a field is written as is, and no CSV round trip is claimed.
- Text.DateText: writes a four-digit year; `toISOString`'s six-digit form for years beyond 9999 is not modelled.
- The `main` dispatch, `showHelp` and the process exit status are not modelled; they are command-line glue.
- A ledger file edited by hand so that it breaks the invariant (repeated ids, ids at or above `nextId`) is not modelled. Every ledger in the model comes from the constructor and the four commands. On such a file `deleteExpense` would remove every expense carrying the id, which is what `Where(expenses, Without(id))` states.
- A ledger file without a `budgets` field behaves like one with no budgets; the model always has the map.
- Two commands running at once on the same file are not modelled; the last writer wins.
