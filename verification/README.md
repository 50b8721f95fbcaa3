# Financial analysis front end: the page logic behind the charts, forms and reports

This project models the client-side logic of a Next.js front end for a personal
finance service. The service turns a user's income and expense records into
analysis reports and charts. The model covers:

- `MarkdownRenderer`, the line-oriented renderer of the analysis reports.
  `processBold` is modelled exactly: the global, lazy substitution of
  `\*\*(.*?)\*\*` by `<strong>$1</strong>`.
- The two-level pie chart: category data, item data, the drill-down and back
  clicks, the stable descending sort, the colour index, the total and the
  top-5 list.
- The heat map: the rows of `prepareHeatmapData`, `getIntensity` and the
  maximum total.
- The expense-entry form: its fixed and user-added fields, and the
  validation and merge done before sending.
- The account page: the edit form filled from the account, `parseInt` on the
  number inputs, cancel, the update payload and the read-only display.
- `LoadingSpinner`: its default props, the message index that wraps around on
  every tick, and the row of progress dots.

Each mutable React state becomes an immutable datatype, and each handler
becomes a pure function from the old state to the new one. JavaScript built-ins
are written out in module `Text`. They are `trim` with the ECMAScript
white-space set, `startsWith`, `includes`, `substring` and `split` on one
character. Module `AccountPage` writes out `parseInt`, and module `Seqs` holds
the stable `Array.prototype.sort`.

Modules:

| module | file | models |
|---|---|---|
| `Outcomes` | outcomes.dfy | `Option`, for `undefined`/`null` |
| `Seqs` | seqs.dfy | filter, sum, stable descending sort |
| `Text` | text.dfy | `trim`, `startsWith`, `includes`, `substring`, `split` |
| `Emphasis` | emphasis.dfy | `processBold` |
| `Markdown` | markdown.dfy | `MarkdownRenderer` |
| `MarkdownProps` | markdown_props.dfy | properties of the renderer |
| `Report` | report.dfy | the analysis response both chart pages read |
| `PieChart` | piechart.dfy | app/piechart/page.tsx |
| `Heatmap` | heatmap.dfy | app/hitmap/page.tsx |
| `Expense` | expense.dfy | app/flow/expense/page.tsx |
| `AccountPage` | account.dfy | app/myPage/page.tsx |
| `Spinner` | spinner.dfy | components/LoadingSpinner.tsx |

`MarkdownRenderer` appears twice, in app/assets_simulation/page.tsx (lines
11-201) and in app/deduction_expectation/page.tsx (lines 12-202). The two
copies differ only in white space and JSX layout, so they are modelled once.
Most rows below cite the first copy.

Where the renderer's apparent intent and its code disagree, the model follows
the code:

- `####` is tested after `###`, so a `####` line is a level-3 heading whose
  text keeps the fourth `#`. No level-4 heading is ever produced.
- A line starting with `---` starts with `-`, so it becomes the list item
  `--`. No horizontal rule is ever produced.
- A table line is any line with at least two pipes, whatever it starts with.
  A line with one pipe is text.
- The first row outside a table becomes the header, even when it holds `---`.
  A table with a header but no data rows is never emitted, and it lingers
  until a later table line.

## Model

| member | source | states |
|---|---|---|
| Text.Trim | app/assets_simulation/page.tsx:83 | `trim` removes white space at both ends only: the result has no white space at either end, is empty exactly when the line is all white space, and is the line itself when it was already trimmed |
| Text.TrimCutsEnds | app/assets_simulation/page.tsx:83 | the trimmed line is a stretch of the line with nothing but white space cut before and after it |
| Text.TrimIdempotent | app/assets_simulation/page.tsx:32 | trimming a stored item again changes nothing |
| Text.SplitOn | app/assets_simulation/page.tsx:12 | `split` on one character yields one more piece than there are separators; no piece holds the separator; joining the pieces back gives the input |
| Text.ContainsChar | app/assets_simulation/page.tsx:86 | `includes("\|")` holds exactly when the line has a pipe |
| Text.Drop | app/assets_simulation/page.tsx:113 | `substring(n)` is the suffix after `n` characters; a start below 0 counts as 0 and one past the end gives the empty string |
| Seqs.Filter | app/piechart/page.tsx:118 | `filter` keeps only elements meeting the predicate, and every position that meets it, as a subsequence in their order |
| Seqs.FilterMultiset | app/piechart/page.tsx:118 | `filter` keeps each element meeting the predicate exactly as often as it occurs, and no other |
| Seqs.SortDesc | app/piechart/page.tsx:303 | the sort by `b.value - a.value` returns a permutation of its input |
| Seqs.SortDescSorted | app/piechart/page.tsx:303 | the sorted entries are ordered by non-increasing value |
| Seqs.SortDescStable | app/hitmap/page.tsx:110 | the sort is stable: for every value, the elements of that value keep their input order |
| Seqs.SortDescSum | app/hitmap/page.tsx:100-102 | sorting does not change a sum over the elements |
| Emphasis.Scan | app/assets_simulation/page.tsx:20-22 | the regex scan cuts the text into single plain characters and matches; undoing the substitution gives the text back, and no captured text holds `**` or a line terminator |
| Emphasis.MatchedText | app/deduction_expectation/page.tsx:21-23 | a match is `**`, the captured text and `**`; the captured text is non-greedy and stays on one line |
| Emphasis.ProcessBoldNoPair | app/assets_simulation/page.tsx:21 | text without `**` comes out of `processBold` unchanged |
| Emphasis.LeftmostShortest | app/assets_simulation/page.tsx:21 | a match closes at the first following `**` on the same line, and the rest of the text is processed on its own |
| Emphasis.OpensMatchIff | app/assets_simulation/page.tsx:21 | a match starts at the head of the text exactly when it opens with `**` and another `**` follows on the same line |
| Emphasis.PlainStep | app/assets_simulation/page.tsx:21 | where no match starts, the character is copied and the search resumes one character later, so every later match is still replaced |
| Markdown.TableTextIffTwoPipes | app/assets_simulation/page.tsx:86 | the table test holds exactly for lines with at least two pipes |
| Markdown.Cells | app/assets_simulation/page.tsx:88-91 | the cells are the trimmed pieces between pipes with the empty ones dropped: a subsequence of the pieces holding every non-empty piece as often as it occurs; none is empty or holds a pipe |
| Markdown.Classify | app/assets_simulation/page.tsx:86-194 | a line is a table line exactly when it has two pipes, and its separator flag is whether it holds `---`; a text line keeps the whole trimmed line; a line is blank exactly when it is empty after trimming; no line is ever a rule |
| Markdown.ClassifyUnpiped | app/assets_simulation/page.tsx:111-194 | below the table test only headings of level 1 to 3, items, text and blank lines occur; the `####` and `---` branches are never reached |
| Markdown.FlushList | app/assets_simulation/page.tsx:24-39 | `flushList` emits a non-empty pending list as one block with the items in order, empties the list and changes nothing else |
| Markdown.FlushTable | app/assets_simulation/page.tsx:41-80 | `flushTable` emits and resets the table only when it has a header and a data row; otherwise nothing changes |
| Markdown.TableStep | app/assets_simulation/page.tsx:86-105 | a table line keeps the locals well formed, never removes an emitted element and opens at most one block |
| Markdown.OtherStep | app/assets_simulation/page.tsx:110-194 | every other line keeps the locals well formed and only appends to the output; a blank line adds nothing of its own |
| Markdown.FlushThenEmit | app/assets_simulation/page.tsx:111-190 | a heading, rule or paragraph first flushes the pending list, then is appended after it; the table state is left alone |
| Markdown.Step | app/assets_simulation/page.tsx:82-195 | one `forEach` step keeps the locals well formed, only appends, and raises emitted plus pending blocks by at most one per non-blank line |
| Markdown.Fold | app/assets_simulation/page.tsx:82-195 | the locals are well formed after any number of lines |
| Markdown.Finish | app/assets_simulation/page.tsx:197-198 | at the end nothing stays pending, and the output only grows |
| MarkdownProps.ClassifyPrecedence | app/assets_simulation/page.tsx:86-170 | the table test comes first, then `###`, `##`, `#`, then `-` or `*`, then text, with the text that follows each prefix trimmed |
| MarkdownProps.FourHashesIsLevelThree | app/assets_simulation/page.tsx:111-135 | a `####` line is a level-3 heading, because `###` is tested first |
| MarkdownProps.FourthHashKept | app/assets_simulation/page.tsx:113 | that heading's text starts with the fourth `#` |
| MarkdownProps.DashesAreItem | app/assets_simulation/page.tsx:164-179 | `---` is the list item `--`, never a rule |
| MarkdownProps.TableRowStep | app/assets_simulation/page.tsx:86-105 | a table line with cells flushes the list; outside a table it becomes the header, even a `---` row; inside, a `---` row is dropped and any other row is appended |
| MarkdownProps.PipeOnlyLine | app/assets_simulation/page.tsx:93 | a line of pipes and white space has no cells and only flushes the list |
| MarkdownProps.OtherLineClosesTable | app/assets_simulation/page.tsx:106-108 | any other line first emits a table that has data rows and resets the table state |
| MarkdownProps.HeaderOnlyTableLingers | app/assets_simulation/page.tsx:42 | a table without data rows survives other lines and is never emitted by them |
| MarkdownProps.ItemLineStep | app/assets_simulation/page.tsx:164-170 | an item line appends its non-empty trimmed text and never flushes the list |
| MarkdownProps.OtherLineClosesList | app/assets_simulation/page.tsx:87-193 | every non-item line closes a pending list as one block, items in order |
| MarkdownProps.BlankLineStep | app/assets_simulation/page.tsx:191-194 | a blank line emits nothing of its own but closes the pending list |
| MarkdownProps.ParagraphStep | app/assets_simulation/page.tsx:181-190 | a text line ends the output with a paragraph holding the whole trimmed line, the text `processBold` is applied to |
| MarkdownProps.FinishOrder | app/assets_simulation/page.tsx:197-198 | at the end the pending list is emitted before the pending table |
| MarkdownProps.PresentRetrimIsIdentity | app/assets_simulation/page.tsx:32 | the second `trim` at render time changes no stored item or cell |
| MarkdownProps.ParseShape | app/assets_simulation/page.tsx:11-201 | every element is well formed (heading level 1 to 3, lists non-empty, tables with a header and a data row, no rule), and there are at most as many elements as non-blank lines |
| MarkdownProps.BlankContent | app/deduction_expectation/page.tsx:12-202 | empty or all-white content parses to no block |
| MarkdownProps.BlankRender | app/deduction_expectation/page.tsx:12-202 | empty or all-white content renders nothing |
| MarkdownProps.EmittedBlocksStay | app/assets_simulation/page.tsx:82-195 | elements come out in source order: what the first `k` lines emitted stays, in place, after every later line |
| MarkdownProps.EmittedBlocksReachOutput | app/assets_simulation/page.tsx:195-200 | and it is a prefix of the final output |
| Report.Positive | app/piechart/page.tsx:118 | `filter(value > 0)` keeps exactly the positive entries, each as often as it occurs, in order |
| Report.TotalOfPositive | app/hitmap/page.tsx:102 | a total of positive values is positive exactly when there is one, and is at least each value |
| Report.Lookup | app/piechart/page.tsx:137-138 | `obj[category]` is missing exactly when no category has that name, and otherwise is that category's items |
| PieChart.Page.Set | app/piechart/page.tsx:220 | setting one chart's state changes only that chart |
| PieChart.Level1Data | app/piechart/page.tsx:115-133 | category data is empty when the field is missing, and otherwise is exactly the positive entries, each as often as it occurs, in order |
| PieChart.Level2Data | app/piechart/page.tsx:136-154 | item data is empty when the object or the category is missing, and otherwise is exactly the category's positive items, each as often as it occurs, in order |
| PieChart.CurrentData | app/piechart/page.tsx:157-173 | level 1 shows category data; level 2 shows the selected category's items; an empty or missing selection shows nothing |
| PieChart.PieClick | app/piechart/page.tsx:216-228 | a click at the category level drills into the clicked category; at the item level nothing changes; the other chart is never touched |
| PieChart.ListClick | app/piechart/page.tsx:231-241 | a click at the item level returns to the category level and forgets the selection; at the category level nothing changes |
| PieChart.RowClick | app/piechart/page.tsx:405-411 | a row click always switches the level of its own chart and leaves the other chart alone |
| PieChart.Back | app/piechart/page.tsx:312-318 | the back button does what a list click at the item level does |
| PieChart.DrillDownAndBack | app/piechart/page.tsx:216-241 | drilling down and coming back restores the page |
| PieChart.DrillDownShowsItems | app/piechart/page.tsx:157-173 | after a drill-down into a named category the chart shows its items |
| PieChart.Indexed | app/piechart/page.tsx:300 | every entry is tagged with its position before the sort |
| PieChart.BuildChart | app/piechart/page.tsx:300-307 | the slices are the entries sorted by value, largest first, stably; each remembers its entry and carries the total; labels show exactly for at most 5 entries; the side list is the first `min(5, n)` slices |
| PieChart.ChartIsStable | app/piechart/page.tsx:303 | slices of equal value are drawn in the order of their entries |
| PieChart.ChartTotal | app/piechart/page.tsx:288-289 | the chart total is the sum of the drawn values |
| PieChart.Palette | app/piechart/page.tsx:53-56 | the income palette has 7 colours and the expense palette 6 |
| PieChart.ColorOf | app/piechart/page.tsx:350-354 | a slice's colour always comes from the palette |
| PieChart.ColorsFollowEntries | app/piechart/page.tsx:350-354 | colour depends on the pre-sort position only; two of the first palette-length entries get equal colours exactly when they are the same entry |
| PieChart.View | app/piechart/page.tsx:284-307 | every drawn slice has a positive value |
| Heatmap.CategoryRow | app/hitmap/page.tsx:96-108 | a category's row holds its positive items sorted largest first and stably, with their sum as total; the total is positive exactly when there are items |
| Heatmap.PrepareHeatmap | app/hitmap/page.tsx:92-113 | no expense object gives no rows; otherwise the rows with a positive total, sorted by total, largest first, stably; every row has items |
| Heatmap.Rows | app/hitmap/page.tsx:95-96 | one row per category, in key order |
| Heatmap.RowsOfCategories | app/hitmap/page.tsx:95-110 | every category with a positive item has a row, and every row is a category's row |
| Heatmap.MaxValue | app/hitmap/page.tsx:173 | the maximum is at least 1 and at least every total, and it is 1 or some total |
| Heatmap.Intensity | app/hitmap/page.tsx:116-119 | the intensity is 0 for a maximum of 0, never above 1, the exact share below the maximum, and 1 at or above it |
| Heatmap.CategoryIntensity | app/hitmap/page.tsx:208 | every category's intensity is in (0, 1], and the first category's is 1 |
| Heatmap.ItemIntensity | app/hitmap/page.tsx:230-231 | an item's intensity is its exact share of its category total, in (0, 1] |
| Expense.Get | app/flow/expense/page.tsx:266 | a record lookup is missing exactly when no property has the key |
| Expense.Put | app/flow/expense/page.tsx:46 | `{ ...rec, [key]: value }` keeps keys unique, keeps every property in place, and adds a new key last |
| Expense.GetPut | app/flow/expense/page.tsx:46 | after a put the key holds the new value and every other key is unchanged |
| Expense.UpdateDefault | app/flow/expense/page.tsx:45-47 | `updateDefaultField` sets that field and no other |
| Expense.UpdateCustom | app/flow/expense/page.tsx:50-56 | `updateCustomField` changes only the named property of the fields with that id |
| Expense.AddCustom | app/flow/expense/page.tsx:59-64 | `addCustomField` appends one empty field with the new id and keeps the others |
| Expense.RemoveCustom | app/flow/expense/page.tsx:67-69 | `removeCustomField` drops exactly the fields with that id and keeps every other field, as often as it occurs, in order |
| Expense.AddThenRemove | app/flow/expense/page.tsx:59-69 | removing a field just added with a fresh id gives back the list |
| Expense.AnyDefaultFilled | app/flow/expense/page.tsx:82-84 | true exactly when some fixed field is non-blank after trimming |
| Expense.AnyCustomFilled | app/flow/expense/page.tsx:85-87 | true exactly when some custom key or value is non-blank after trimming |
| Expense.Validate | app/flow/expense/page.tsx:75-92 | upload mode fails exactly without a file; manual mode fails exactly when every field is blank; each failure carries its message |
| Expense.Merge | app/flow/expense/page.tsx:100-108 | the merged record has unique keys |
| Expense.MergeUntouched | app/flow/expense/page.tsx:100-108 | a key no custom field names keeps its fixed value |
| Expense.MergeLastWins | app/flow/expense/page.tsx:104-108 | a non-blank key takes the value of the last custom field with that key |
| Expense.MergeKeepsDefaults | app/flow/expense/page.tsx:100-102 | every fixed field is sent |
| Expense.BlankKeyIgnored | app/flow/expense/page.tsx:85-108 | a field with a value but a blank key passes validation yet adds nothing to what is sent |
| Expense.UntouchedFormRejected | app/flow/expense/page.tsx:14-18 | the untouched form cannot be sent in manual mode |
| Expense.FillingAFieldUnlocks | app/flow/expense/page.tsx:45-92 | filling any fixed field with a non-blank value makes manual sending possible |
| AccountPage.ParseInt | app/myPage/page.tsx:385 | `parseInt` gives `NaN` exactly when no digit follows the blanks, the sign and the `0x` prefix; a number read after `-` is never positive, any other never negative |
| AccountPage.ParseIntNaNIff | app/myPage/page.tsx:385 | `parseInt` gives `NaN` exactly when the first character after the blanks, one optional sign and an optional `0x`/`0X` is missing or no digit of the base |
| AccountPage.ParseIntNaN | app/myPage/page.tsx:402 | an empty input, or one whose first non-blank character is no digit or sign, reads as `NaN` |
| AccountPage.ParseDecimal | app/myPage/page.tsx:419 | the decimal text of any integer reads back as that integer |
| AccountPage.ParseHex | app/myPage/page.tsx:419 | `0x` followed by the hexadecimal digits of a number reads back as that number |
| AccountPage.FormOf | app/myPage/page.tsx:79-86 | each text field is copied from the account when filled and is empty otherwise; each number field is the account's number when set and 0 otherwise, so it is falsy exactly when the account's is missing or 0 |
| AccountPage.EnterNumber | app/myPage/page.tsx:385 | a number input sets its field to `parseInt` of the text and no other field |
| AccountPage.Edit | app/myPage/page.tsx:102-104 | editing changes only the editing flag |
| AccountPage.Cancel | app/myPage/page.tsx:106-118 | cancel stops editing and refills the form from the account; with no account the form stays |
| AccountPage.CancelRestoresLoaded | app/myPage/page.tsx:79-118 | edit, any typing, then cancel gives back the page as loaded |
| AccountPage.TextOrNull | app/myPage/page.tsx:136-138 | `s \|\| null` is `null` exactly for the empty string |
| AccountPage.NumberIfTruthy | app/myPage/page.tsx:142-150 | a number is sent exactly when it is truthy (not 0 and not `NaN`) |
| AccountPage.Submit | app/myPage/page.tsx:122-150 | nothing is sent without an account; otherwise the form's payload is sent |
| AccountPage.SubmitUntouched | app/myPage/page.tsx:79-150 | an untouched form sends the account's own values: `null` for missing text, numbers only when non-zero |
| AccountPage.ClearedNumberOmitted | app/myPage/page.tsx:142-150 | a cleared or non-numeric input is left out of the request |
| AccountPage.OrDash | app/myPage/page.tsx:326 | a missing or empty value is shown as `-` |
| AccountPage.Title | app/myPage/page.tsx:272 | the heading is the nickname when it is filled, otherwise the name |
| AccountPage.TitleAndSubtitle | app/myPage/page.tsx:272-276 | when the subtitle shows, the heading is the nickname; without a nickname the heading is the name; with neither there is no heading text |
| AccountPage.DisplayFallback | app/myPage/page.tsx:326-367 | each of nickname, name, email and phone falls back to `-` exactly when it is missing or empty |
| Spinner.WithDefaults | components/LoadingSpinner.tsx:10-18 | a prop left undefined takes its default: four messages, and 2000 ms |
| Spinner.Tick | components/LoadingSpinner.tsx:23 | a tick keeps the index below the number of messages; with no messages the index is `NaN` |
| Spinner.TicksModulo | components/LoadingSpinner.tsx:19-23 | after `k` ticks the index is `k` modulo the number of messages |
| Spinner.TicksPeriodic | components/LoadingSpinner.tsx:19-23 | the index returns to 0 after every full round of messages |
| Spinner.NoMessages | components/LoadingSpinner.tsx:23 | with no messages the index is `NaN` from the first tick on |
| Spinner.Dots | components/LoadingSpinner.tsx:45-53 | one dot per message, lit exactly up to the current index |
| Spinner.LitCount | components/LoadingSpinner.tsx:45-53 | exactly `index + 1` dots are lit |
| Spinner.Message | components/LoadingSpinner.tsx:60 | a message is shown exactly when the index is a number within the list |
| Spinner.AlwaysAMessage | components/LoadingSpinner.tsx:60 | with messages, the message after `k` ticks is message `k` modulo their number |

## Left out

- Network and browser effects are left out: `fetch` and its responses, the authentication context, the router, `alert`, `window` and the console. A loaded account or analysis is a parameter.
- The tax-credit page is left out. Its request is cancelled through an `AbortController`, and it renders with `TaxCreditContent`, whose own renderer copy is not part of this model.
- JSX, CSS classes and `dangerouslySetInnerHTML` are left out. An element is modelled by its kind and its text.
- `formatCurrency`, `toFixed`, `getColor`, the Recharts components and `toUpperCase` are left out. They only format output that is already computed.
- `crypto.randomUUID()` is left out: the new id is a parameter of `Expense.AddCustom`.
- The income form, the terms, login and not-found pages and the navigation bar are left out. They hold no logic beyond what is modelled here.
- The timer is left out. `setInterval` and `clearInterval` are not modelled: one tick is one call of the interval callback. `interval` is kept only as a prop value.
- The response of a successful account update, which replaces the stored account, is left out.
- Report.Lookup and Expense.Get: JavaScript orders integer-like property keys numerically before the others. The model keeps every key in insertion order.
- AccountPage.ParseInt: the integers are unbounded, so very long digit strings do not lose precision or become `Infinity` as in JavaScript. An `Infinity` or `NaN` sent to the server is not modelled.
- The `type` field of the pie chart's `ChartState` is never read, so it is not stored.
- Heatmap.Intensity: the division is exact over the rationals, not a floating-point division.
