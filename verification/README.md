# Product sales dashboard and CSV import: a Dafny model

This project models the data logic of a small React front end for product
sales. There are two pages.

The **dashboard** (`src/pages/DashboardPage.tsx`):

- rolls raw sale records up per product name (`aggregatedData`): summed sold
  count, summed revenue `avg_price * sold_count`, and the weighted average
  price;
- keeps the products whose sold count and average price lie in two closed
  ranges (`filteredData`);
- offers two presets that rewrite those ranges (`applyPreset`): the five
  best sellers (`top5`) and the ten highest earners (`top10revenue`);
- has a reset (`resetFilters`) and four number inputs that edit one end of a
  range each;
- shows two totals over the filtered list (`totalRevenue`, `totalSold`).

The **import page** (`src/pages/ImportPage.tsx`) accepts a file whose name
ends in `.csv` (`handleFileSelect`) and builds a preview. It splits the text
on line feeds, drops blank lines, keeps the first eleven lines, splits each
on commas and trims every cell. The table shows the first row as the header
and the next ten as the body.

JavaScript numbers are modelled by `Numbers.Num`: a finite real, +Infinity,
-Infinity or NaN. The edge cases of the source are therefore modelled as they
behave, not excluded by preconditions:

- an average over a zero sold count is `0 / 0 = NaN`;
- `Math.min()` of an empty list is +Infinity, and `Math.max()` of an empty
  list is -Infinity;
- every comparison with NaN is false.

`Array.prototype.sort` is stable, so the preset sort is a stable insertion
sort on a sequence. The two `Math.min` thresholds, `minSold` of `top5` and
`minRevenue` of `top10revenue`, are also characterised without any sort, as
the n-th largest key counting duplicates, and are proved not to depend on how
ties are ordered. `maxSold` is different. It is the largest sold count in
the ten-product slice, and which of several tied products land in that slice
follows their order in the input. So the `top10revenue` lower price bound
depends on the order of the input records, and
`FilterState.Top10RevenueDependsOnOrder` gives two orderings of the same
products with different bounds. `String.prototype.trim`
removes exactly the ECMAScript WhiteSpace and LineTerminator characters.

Modules, one file each: `Wrappers` (Option), `Numbers`, `Types` (the two
records of `src/types`), `SeqFacts`, `Aggregation`, `RangeFilter`, `Totals`,
`Ranking`, `FilterState`, `Text` (trim, split, endsWith), `CsvPreview` and
`ImportPage`.

## Model

| member | source | states |
|---|---|---|
| Numbers.Div | src/pages/DashboardPage.tsx:62 | JavaScript division: a non-zero divisor gives the real quotient. A zero divisor gives +Infinity for a positive dividend, -Infinity for a negative one and NaN for zero. |
| Numbers.Scale | src/pages/DashboardPage.tsx:87 | Multiplying by the positive constant 0.9 keeps a value finite exactly when it was finite and scales it. NaN and the infinities pass through unchanged. |
| Aggregation.Get | src/pages/DashboardPage.tsx:51 | `grouped.get(name)` with the all-zero fallback: the entry stored under the name when it is a key, the all-zero entry otherwise. |
| Aggregation.Put | src/pages/DashboardPage.tsx:52-56 | `grouped.set`: the keys gain the new name and an existing key keeps its position. A new key is appended at the end. Entries under other names are untouched and names stay distinct. |
| Aggregation.StepReplaces | src/pages/DashboardPage.tsx:50-56 | A record whose name is already a key replaces that key's entry, in place, with the summed counts. Nothing else changes. |
| Aggregation.StepAppends | src/pages/DashboardPage.tsx:50-56 | A record with a new name appends one entry holding that record's sold count, revenue and a count of 1. |
| Aggregation.StepExisting | src/pages/DashboardPage.tsx:50-56 | Folding a record with a known name into a map that is faithful to the records so far gives a map faithful to the records including it: the per-name sums, the key set and the first-occurrence order. |
| Aggregation.StepNew | src/pages/DashboardPage.tsx:50-56 | The same for a record with a new name. Its entry goes last, which matches its first occurrence being the latest. |
| Aggregation.GroupByFaithful | src/pages/DashboardPage.tsx:48-57 | After `forEach` the map has one entry per distinct input name, ordered by first occurrence. Each entry holds that name's summed sold count, summed revenue and record count, as defined independently over the input. |
| Aggregation.ZeroSoldZeroRevenue | src/pages/DashboardPage.tsx:53-54 | Sold counts are non-negative, so a name whose sold counts sum to zero also has zero revenue. |
| Aggregation.ProductEntry | src/pages/DashboardPage.tsx:59-64 | An entry holding a name's sums becomes a product with that name, those sums, and the average revenue / sold. The average is NaN when the sold sum is zero. |
| Aggregation.Aggregate | src/pages/DashboardPage.tsx:47-65 | `aggregatedData`: names are distinct and exactly the input's names, in order of first occurrence. Each product's sold count and revenue are that name's sums over the input. Its average price is revenue / sold when sold > 0 and NaN when sold = 0. |
| RangeFilter.Filter | src/pages/DashboardPage.tsx:67-74 | Every kept product passes both closed ranges and none has a NaN average price. The result is no longer than the input. |
| RangeFilter.FilterExact | src/pages/DashboardPage.tsx:67-74 | The result is the subsequence of the input at exactly the positions whose product passes, in increasing order. |
| RangeFilter.FilterMembers | src/pages/DashboardPage.tsx:67-74 | A product is kept if and only if it is in the input and passes both ranges. |
| RangeFilter.FilterKeepsAll | src/pages/DashboardPage.tsx:67-74 | When every product passes, the filter returns its input unchanged. |
| RangeFilter.FilterIdempotent | src/pages/DashboardPage.tsx:67-74 | The bounds are inclusive, so filtering twice with the same ranges equals filtering once. |
| Totals.StepSums | src/pages/DashboardPage.tsx:50-56 | Folding one record adds exactly its sold count and its revenue to the sums over the map. |
| Totals.GroupByTotals | src/pages/DashboardPage.tsx:48-57 | The sums over the whole map equal the sums over the raw records. |
| Totals.AggregateTotals | src/pages/DashboardPage.tsx:98-99 | `totalRevenue` and `totalSold` over the unfiltered aggregate equal revenue and units summed over the raw records: aggregation neither loses nor invents any. |
| Totals.AggregateTotalsOrderIndependent | src/pages/DashboardPage.tsx:47-65 | Reordering the input records leaves both totals over the aggregate unchanged. |
| Totals.TotalsPermutation | src/pages/DashboardPage.tsx:98-99 | Both totals depend only on the multiset of products summed, not on their order. |
| Totals.DisplaySortKeepsTotals | src/pages/DashboardPage.tsx:273 | The in-place revenue sort of the filtered list during rendering leaves both totals unchanged. |
| Totals.FilteredSoldBounded | src/pages/DashboardPage.tsx:99 | `totalSold` of the filtered list never exceeds `totalSold` of the whole aggregate. |
| Totals.FilteredRevenueBounded | src/pages/DashboardPage.tsx:98 | With non-negative revenues, `totalRevenue` of the filtered list never exceeds that of the whole aggregate. |
| Ranking.Insert | src/pages/DashboardPage.tsx:79 | Inserting into a descending list gives a descending permutation of the list plus the new element. |
| Ranking.SortDesc | src/pages/DashboardPage.tsx:79 | `[...agg].sort(desc by key)`: a permutation of the input, in descending key order. |
| Ranking.Top | src/pages/DashboardPage.tsx:79 | `.slice(0, K)` of the sorted copy: `min(K, n)` products in descending order, forming a sub-multiset of the input, so no product is repeated beyond its multiplicity. |
| Ranking.TopOutranksRest | src/pages/DashboardPage.tsx:79 | The slice holds the highest keys: every product of the input left out of it has a key no greater than any product in it. |
| Ranking.SortDescSorted | src/pages/DashboardPage.tsx:79 | An input already in descending order, ties included, is a fixed point of the sort. |
| Ranking.InsertWithKey | src/pages/DashboardPage.tsx:79 | Inserting an element into a descending list puts it ahead of the products that share its key, and the order among the others is unchanged. |
| Ranking.SortDescStable | src/pages/DashboardPage.tsx:79 | The sort is stable, as `Array.prototype.sort` is: for every key, the products with that key come out in the order they went in. |
| Ranking.MinOf | src/pages/DashboardPage.tsx:80 | The smallest key of a non-empty list: no key is smaller and some element has it. |
| Ranking.MaxOf | src/pages/DashboardPage.tsx:86 | The largest key of a non-empty list: no key is larger and some element has it. |
| Ranking.MathMin | src/pages/DashboardPage.tsx:80 | `Math.min(...keys)`: +Infinity exactly for an empty list, otherwise the finite minimum. |
| Ranking.MathMax | src/pages/DashboardPage.tsx:86 | `Math.max(...keys)`: -Infinity exactly for an empty list, otherwise the finite maximum. |
| Ranking.KeyWithinExtremes | src/pages/DashboardPage.tsx:80 | Every element's key lies between the minimum and the maximum. |
| Ranking.CountPermutation | src/pages/DashboardPage.tsx:79 | How many products reach or exceed a value does not depend on their order. |
| Ranking.NthLargestUnique | src/pages/DashboardPage.tsx:80 | For a given input and n there is at most one n-th largest key, counting duplicates. |
| Ranking.SortedNthLargest | src/pages/DashboardPage.tsx:79-80 | In a descending list the key at position n - 1 is the n-th largest. |
| Ranking.TopThreshold | src/pages/DashboardPage.tsx:79-80 | For non-empty data, `Math.min` of the top-K keys is finite and is the `min(K, n)`-th largest key of the input. The top-K slice holds every product whose key exceeds it. |
| Ranking.TieOrderIrrelevant | src/pages/DashboardPage.tsx:79-80 | Any descending ordering of the same products, whatever its tie order, yields the same `Math.min` over its first K elements. |
| FilterState.ApplyPreset | src/pages/DashboardPage.tsx:76-90 | The preset becomes the highlighted one whatever its name. A name other than the two presets leaves both ranges as they were. |
| FilterState.ResetFilters | src/pages/DashboardPage.tsx:92-96 | No preset is highlighted, and the ranges return to [0, 100] and [0, 10000]. |
| FilterState.EditSoldCount | src/pages/DashboardPage.tsx:164-172 | A sold-count input replaces one end of the sold range. The other end, the price range and the highlighted preset are kept. |
| FilterState.EditAvgPrice | src/pages/DashboardPage.tsx:187-195 | A price input replaces one end of the price range. The other end, the sold range and the highlighted preset are kept. |
| FilterState.ResetRestoresInitial | src/pages/DashboardPage.tsx:92-96 | From any state, reset gives exactly the initial state, so the visible list is the initial one. |
| FilterState.Top5Preset | src/pages/DashboardPage.tsx:78-82 | `top5` highlights itself and resets the price range. Its sold range is [m, 100], where m is the `min(5, n)`-th largest sold count of the data. With no products the lower bound is +Infinity. |
| FilterState.Top5ShowsBestSellers | src/pages/DashboardPage.tsx:78-82 | After `top5`, each of the five best sellers is shown if its sold count is at most 100 and its price lies in [0, 10000]. |
| FilterState.Top5CanHideBestSeller | src/pages/DashboardPage.tsx:81 | The fixed upper bound 100 can hide the best seller itself: one product that sold 150 leaves nothing visible after `top5`. |
| FilterState.Top10RevenuePreset | src/pages/DashboardPage.tsx:83-88 | `top10revenue` highlights itself, resets the sold range and sets the price upper bound to 10000. With no products the lower bound is NaN (+Infinity / -Infinity). |
| FilterState.Top10RevenueBound | src/pages/DashboardPage.tsx:84-87 | For non-empty data: minRev is the `min(10, n)`-th largest revenue; every product earning more is in the top slice; every product in the slice has revenue at least minRev and sold count at most maxSold. The lower price bound is minRev / maxSold * 0.9 when maxSold > 0. When maxSold = 0 it is +Infinity for minRev > 0, -Infinity for minRev < 0 and NaN for minRev = 0. |
| FilterState.ZeroSoldBoundAdmits | src/pages/DashboardPage.tsx:86-87 | With maxSold = 0, a finite average price passes the lower bound exactly when minRev is negative: +Infinity and NaN hide every product, -Infinity keeps every price. |
| FilterState.Top10RevenueDependsOnOrder | src/pages/DashboardPage.tsx:84-87 | Ten products with revenue 100 and sold count 1, plus one with revenue 100 and sold count 50: placed last, the extra product leaves the slice and the bound is 90; placed first, it enters the slice and the bound is 1.8. |
| FilterState.Top10RevenueShowsTopEarners | src/pages/DashboardPage.tsx:83-88 | With non-negative revenues, each top-ten earner is shown after `top10revenue` if its sold count is in (0, 100] and its weighted average price is at most 10000. |
| FilterState.ZeroSoldNeverShown | src/pages/DashboardPage.tsx:62 | A product whose summed sold count is 0 has a NaN average and is never visible under any ranges, including the default ones. |
| FilterState.ApplyPresetIdempotent | src/pages/DashboardPage.tsx:76-90 | Applying the same preset twice to the same data is the same as applying it once. |
| Text.LeadingSpace | src/pages/ImportPage.tsx:29 | The length of the longest all-whitespace prefix: that prefix is whitespace and the next character is not. |
| Text.TrimEnd | src/pages/ImportPage.tsx:29 | A prefix of the input whose remainder is all whitespace and which does not end in whitespace. |
| Text.Trim | src/pages/ImportPage.tsx:29 | `trim()`: a contiguous slice of the input that neither starts nor ends with whitespace. Everything cut before and after it is whitespace. |
| Text.TrimEmptyIffBlank | src/pages/ImportPage.tsx:27 | `row.trim()` is the falsy empty string exactly when the row is all whitespace (both directions). |
| Text.TrimTrimmed | src/pages/ImportPage.tsx:29 | A string with no surrounding whitespace is its own trim. |
| Text.TrimIdempotent | src/pages/ImportPage.tsx:29 | Trimming twice equals trimming once. |
| Text.Split | src/pages/ImportPage.tsx:27 | `split(sep)` gives one more piece than there are separators, and no piece contains the separator. |
| Text.JoinSplit | src/pages/ImportPage.tsx:27 | Joining the pieces of a split with the separator gives back the original text. |
| Text.SplitJoin | src/pages/ImportPage.tsx:29 | Splitting a separator-joined list of separator-free pieces gives back exactly those pieces. |
| Text.SplitNoSep | src/pages/ImportPage.tsx:29 | A string without the separator splits into itself alone. |
| CsvPreview.NonBlankExact | src/pages/ImportPage.tsx:27 | `filter(row => row.trim())` keeps, in order, exactly the lines that are not all whitespace. |
| CsvPreview.ParseRow | src/pages/ImportPage.tsx:28-30 | A row has one cell more than the line has commas. Every cell is trimmed and comma-free. |
| CsvPreview.ParseRowCells | src/pages/ImportPage.tsx:28-30 | What each cell holds: the line is the comma-join of comma-free pieces, one per cell, and each cell is its piece trimmed. |
| CsvPreview.ParseRowJoin | src/pages/ImportPage.tsx:28-30 | Cells without commas or surrounding whitespace, joined with commas, parse back to exactly those cells. |
| CsvPreview.ParsePreview | src/pages/ImportPage.tsx:26-31 | The preview has `min(11, number of non-blank lines)` rows, and each row has at least one cell. |
| CsvPreview.PreviewExact | src/pages/ImportPage.tsx:27-30 | Each preview row parses a non-blank line, taken in increasing line order. No non-blank line is skipped before the last one used, nor at all when fewer than eleven rows are kept. |
| CsvPreview.PreviewCellsTrimmed | src/pages/ImportPage.tsx:29 | Every preview cell has no whitespace at either end. In particular no cell ends in the carriage return that a CRLF file leaves after splitting on line feeds. |
| CsvPreview.TableShowsWholePreview | src/pages/ImportPage.tsx:110-121 | For any preview of one to eleven rows, the header `preview[0]` followed by the body `preview.slice(1, 11)` is the whole preview. |
| ImportPage.HandleFileSelect | src/pages/ImportPage.tsx:12-32 | No file: nothing changes. A name not ending in `.csv`: the error message and status are set, and the previous file and preview stay. Otherwise: file taken, status idle, message cleared, preview parsed from the text. `uploading` is never touched. |
| ImportPage.SelectReportsErrorIffRejected | src/pages/ImportPage.tsx:16-24 | Once a file is picked, the status is `error` exactly when the name does not end in `.csv`, and the message is empty exactly when it does. |
| ImportPage.AcceptedPreviewWellFormed | src/pages/ImportPage.tsx:22-31 | After an accepted file the preview has at most eleven rows, and all its cells are trimmed and comma-free. |
| ImportPage.AcceptedForgetsPrevious | src/pages/ImportPage.tsx:22-31 | The state after an accepted file depends only on that file and on `uploading`, not on any earlier selection or error. |
| ImportPage.HandleFileSelectIdempotent | src/pages/ImportPage.tsx:12-32 | Selecting the same file twice has the same effect as selecting it once. |
| ImportPage.ExtensionExamples | src/pages/ImportPage.tsx:16 | The extension check is case-sensitive: `data.txt` and `data.CSV` are rejected, and the bare name `.csv` is accepted. |
| ImportPage.ImportExample | src/pages/ImportPage.tsx:26-31 | The file `a, b\r\n\n1,2` previews as `[["a","b"],["1","2"]]`: the blank line is dropped, and the space and the carriage return are trimmed. |

## Left out

- Fetching the sales (`fetchData`, `src/pages/DashboardPage.tsx:28-45`) and the mock fallback data: network I/O. The records are the model's input.
- `handleUpload` (`src/pages/ImportPage.tsx:34-68`): an HTTP POST followed by a three-second timer. Network and clock are outside the model.
- The time between `handleFileSelect`'s first updates and the `await selectedFile.text()` (`src/pages/ImportPage.tsx:22-31`): the file's text is part of the selection, and the handler is one atomic step.
- Rendering: the JSX, the pie chart, colours, the loading spinner and the theme. Only the header/body split of the preview table is modelled, together with the totals' indifference to the in-place display sort at `src/pages/DashboardPage.tsx:273`. How that sort reorders the rows on screen is not modelled.
- Floating point: finite numbers are exact reals, so the rounding of IEEE-754 sums, products and quotients is not modelled.
- Sold counts are modelled as non-negative integers (`nat`). This is a modelling choice: `src/types/index.ts` declares `sold_count: number`, so fractional or negative counts from the backend are not modelled.
- The number inputs' `+e.target.value` conversion from text: an edit receives the already converted `Num`.
- Strings are sequences of Unicode scalar values, not UTF-16 code units. `trim`, `split` and `endsWith` agree on both views for the characters involved.
- The `count` field of a map entry is kept by the fold and modelled, but the dashboard never reads it.
- Totals.FilteredRevenueBounded: requires non-negative revenues, because a product with a negative average price contributes negative revenue, and filtering it out would raise the total.
- FilterState.Top10RevenueShowsTopEarners: states only the case of non-negative revenues and a positive sold count. With a zero sold count the price is NaN and the product is never shown, see FilterState.ZeroSoldNeverShown.
- CsvPreview.NonBlank: its own contract only bounds the length. The exact characterisation is CsvPreview.NonBlankExact.
- `src/App.tsx` (routing) and `src/components`: not part of this model.
