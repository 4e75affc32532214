# Arbitrage dashboard: price comparison and opportunity tables

A model, in Dafny, of the computing parts of a Next.js dashboard. The dashboard polls an API for
token prices read from several blockchain RPC endpoints and for detected arbitrage opportunities.
It then shows them in tables. The model covers:

- **Price comparison grid** (`PriceComparison`, src/pages/index.tsx). A `reduce` groups the price
  records by token id. The distinct RPC URLs become the columns, in order of first appearance.
  Each record's row has one cell per column. The cell is the identity marker `-` for the row's own
  RPC. It is `N/A` when the token has no record at that RPC. Otherwise it is the deviation
  `(row − other) / other · 100` from the token's first record at that RPC. A cell is shown green
  and bold when its value, formatted with `toFixed(2)` and read back, exceeds 1 in absolute value.
  The token label falls back to `Token <id>` and `Unknown` when there is no embedded token.
- **Per-token spread** (`PriceSpread`, src/components/PriceTable.tsx). Among the prices that
  parse to a positive number, it computes how far the highest is above the lowest, in percent of
  the lowest. It is `0` when fewer than two prices are valid.
- **Dashboard page state** (`Dashboard`, pages/index.tsx). A class holds `tokens` and `prices`,
  both empty at first. A refresh replaces both lists or neither. The table has one row per price
  record, showing the symbol of the first token with the record's id.
- **Opportunity tables** (`ArbitrageTable`, src/components/ArbitrageTable.tsx, and `BadgeTable`,
  components/PriceTable.tsx). Each has one row per opportunity, in input order. The status colour
  is blue for `detected`, green for `executed` and red for anything else.

Helper modules: `Wrappers` (Option), `Seqs` (`find` and `[...new Set(xs)]`), and `Decimal`.
`Decimal` covers the integer text in `Token ${id}` and the `toFixed(2)` rounding that the
significance tests read back.

Modelling choices:

- `parseFloat` of a price string is an `Option<real>`, where `None` stands for NaN. Prices are
  exact reals.
- No code guards against a zero divisor. So a deviation is `Finite(d)`, `Infinite(sign)` for a
  non-zero price over a zero column price, or `NotANumber` for `0/0` or an unparsed price. The
  model follows JavaScript, where `Infinity` passes the `> 1` emphasis test and `NaN` does not.
- `toFixed(2)` rounds to the nearest hundredth, with ties away from zero. The emphasis tests read
  that rounded value. Hence a value is emphasised exactly when its absolute value is at least
  1.005. A value shown as `1.00` is not emphasised; one shown as `1.01` is.
- `Object.entries` decides the order of the token blocks. JavaScript fixes that order: keys
  that are array indices (integers from 0 up to 2^32 − 2) come first in ascending order, then
  the other keys (negative ids and larger ids, for example) in insertion order. The model deliberately leaves the order open. It takes it as a
  parameter `order` that lists each token id once (`PriceComparison.EnumeratesKeys`), and every
  property is proved for all such orders.

Behaviour a reader might expect but the code does not have; the model follows the code:

- Duplicate (token, RPC) records: a last-write-wins rule would be the usual expectation, but the
  code keeps the first match, because `find` returns the first element that matches.
- Opportunities are not ranked by profit. Rows keep input order.
- The opportunity tables read `opp.token.symbol` and `opp.token.name` directly, with no fallback.
  Only the price grid has the `Token <id>` / `Unknown` fallback.
- A zero column price is not guarded. The cell shows `Infinity%` or `NaN%`, not an absent marker.
- Prices are not checked to be non-negative. Only the spread filters for `p > 0`.

## Model

| member | source | states |
|---|---|---|
| `Seqs.FindFirst` | src/pages/index.tsx:81 | `find` gives nothing exactly when no element matches; otherwise it gives the element at the first matching index |
| `Seqs.Distinct` | src/pages/index.tsx:43 | the result has no duplicates and holds exactly the values of the input |
| `Seqs.DistinctFirstAppearance` | src/pages/index.tsx:43 | values of `[...new Set(s)]` are listed in the order of their first occurrence in `s` |
| `Decimal.NatToString` | src/pages/index.tsx:67 | digits of an id: non-empty, all decimal digits, no leading zero |
| `Decimal.IntToStringRoundTrip` | src/pages/index.tsx:67 | the text `${id}` reads back as `id` |
| `Decimal.IntToString` | src/pages/index.tsx:67 | definition of `${id}`; properties in `Decimal.IntToStringRoundTrip` and `Decimal.IntToStringInjective` |
| `Decimal.IntToStringInjective` | src/pages/index.tsx:67 | distinct ids give distinct texts |
| `Decimal.Cents` | src/pages/index.tsx:85-86 | `toFixed(2)` picks the hundredths nearest to `x`, a tie going away from zero |
| `Decimal.RoundToCents` | src/pages/index.tsx:85-86 | the formatted value read back is within 0.005 of the exact value |
| `Decimal.SignificantAfterRounding` | src/pages/index.tsx:91-92 | `Math.abs(parseFloat(x.toFixed(2))) > 1` holds exactly when the absolute value of `x` is at least 1.005 |
| `Decimal.IsSignificant` | src/pages/index.tsx:91-92 | definition of `Math.abs(v) > 1`; properties in `Decimal.SignificantAfterRounding` and `Decimal.SignificanceBoundary` |
| `Decimal.SignificanceBoundary` | src/pages/index.tsx:91-92 | ±1.00 is not significant, ±1.01 is |
| `PriceComparison.Select` | src/pages/index.tsx:34-40 | a token's group, never longer than the input; properties in `PriceComparison.SelectSound`, `PriceComparison.SelectComplete` and `PriceComparison.SelectAppend` |
| `PriceComparison.Grouping` | src/pages/index.tsx:34-40 | definition of the grouped record; properties in `PriceComparison.GroupingPartitions` and `PriceComparison.GroupSizesSum` |
| `PriceComparison.GroupByToken` | src/pages/index.tsx:34-40 | the `reduce` loop over the accumulator map yields exactly `Grouping(prices)` |
| `PriceComparison.GroupingSnoc` | src/pages/index.tsx:35-38 | one step creates the token's array if missing and pushes the record on it, leaving other groups alone |
| `PriceComparison.GroupingPartitions` | src/pages/index.tsx:34-40 | the keys are the token ids present; every record is in its token's group; each group holds only input records with that token id |
| `PriceComparison.SelectSound` | src/pages/index.tsx:34-40 | a group holds only records of the input with its key |
| `PriceComparison.SelectComplete` | src/pages/index.tsx:34-40 | every record is in the group of its token id |
| `PriceComparison.SelectAppend` | src/pages/index.tsx:34-40 | grouping keeps input order: the group of `a + b` is the group of `a` followed by the group of `b` |
| `PriceComparison.GroupSizesSum` | src/pages/index.tsx:34-40 | the group sizes sum to the number of records |
| `PriceComparison.RpcUrls` | src/pages/index.tsx:43 | `prices.map(p => p.rpc_url)`, index by index |
| `PriceComparison.UniqueRpcs` | src/pages/index.tsx:43 | columns have no duplicates, contain every record's RPC URL, contain only such URLs, and follow first-appearance order |
| `PriceComparison.PercentDeviation` | src/pages/index.tsx:85-86 | the deviation is a finite number exactly when both prices parsed and the column price is non-zero; properties in `PriceComparison.DeviationSign`, `PriceComparison.DeviationInverse`, `PriceComparison.DeviationSwap` and `PriceComparison.DeviationUndefined` |
| `PriceComparison.Classify` | src/pages/index.tsx:77-98 | the cell is `-` exactly for the row's own RPC; the other cases are in `PriceComparison.ClassifyCases` |
| `PriceComparison.ClassifyCases` | src/pages/index.tsx:77-98 | a cell is `-` exactly for the row's own RPC; it is `N/A` exactly when no record of the token has that RPC; otherwise it is the deviation from the first such record |
| `PriceComparison.DeviationOfEqualPrices` | src/pages/index.tsx:85-86 | a non-zero price deviates from an equal column price by exactly 0 |
| `PriceComparison.DeviationSign` | src/pages/index.tsx:85-86 | against a positive column price, the deviation is positive exactly when the row price is higher, and negative exactly when it is lower |
| `PriceComparison.DeviationInverse` | src/pages/index.tsx:85-86 | the column price raised by the deviation is the row price: the base is the column's price |
| `PriceComparison.DeviationSwap` | src/pages/index.tsx:85-86 | swapping row and column gives `-d / (1 + d/100)`, not `-d` |
| `PriceComparison.DeviationUndefined` | src/pages/index.tsx:85-86 | NaN exactly when a price failed to parse or both are zero; an infinity exactly when only the column price is zero |
| `PriceComparison.HighlightRule` | src/pages/index.tsx:88-93 | a finite cell is green and bold exactly when its absolute value is at least 1.005; `-`, `N/A` and NaN cells never are |
| `PriceComparison.Highlighted` | src/pages/index.tsx:88-93 | definition of the green and bold style; properties in `PriceComparison.HighlightRule` |
| `PriceComparison.Symbol` | src/pages/index.tsx:67 | the embedded token's symbol if present and non-empty, else `Token <token_id>` |
| `PriceComparison.Name` | src/pages/index.tsx:69 | the embedded token's name if present and non-empty, else `Unknown` |
| `PriceComparison.FallbackSymbolNamesToken` | src/pages/index.tsx:67 | a fallback label (no embedded token, or an empty symbol) is `Token ` followed by text that reads back as the token id |
| `PriceComparison.Cells` | src/pages/index.tsx:77-98 | one cell per column, each the classification of that column |
| `PriceComparison.Lines` | src/pages/index.tsx:62-100 | one line per record of the token, in group order |
| `PriceComparison.RecordAt` | src/pages/index.tsx:81 | nothing exactly when no record of the group has the column's RPC; otherwise the record at the first index with that RPC |
| `PriceComparison.MakeBlock` | src/pages/index.tsx:62-98 | one token's block: the label cells come from the group's first record, and there is one line per group record, in group order, each with one cell per column classified against the whole group |
| `PriceComparison.Blocks` | src/pages/index.tsx:61-101 | one block per listed token id, built from that token's non-empty group |
| `PriceComparison.PriceTable` | src/pages/index.tsx:23-106 | definition of the whole view; properties in `PriceComparison.EmptyMeansNoData`, `PriceComparison.OneLinePerRecord` and `PriceComparison.GridLine` |
| `PriceComparison.EmptyMeansNoData` | src/pages/index.tsx:24-31 | the "No price data available" view is produced exactly for an empty list |
| `PriceComparison.BlocksLines` | src/pages/index.tsx:61-101 | the blocks hold as many lines as the listed groups hold records |
| `PriceComparison.OneLinePerRecord` | src/pages/index.tsx:61-101 | the grid has exactly one line per input record |
| `PriceComparison.GridLine` | src/pages/index.tsx:61-98 | every line shows an input record in its own token's block, with one cell per column, each classified against that token's group |
| `PriceSpread.ValidPrices` | src/components/PriceTable.tsx:18-20 | the kept prices are strictly positive and no more than the records |
| `PriceSpread.ValidPricesMembers` | src/components/PriceTable.tsx:18-20 | a value is kept exactly when it is positive and some record parses to it |
| `PriceSpread.ValidPricesAppend` | src/components/PriceTable.tsx:18-20 | the filter keeps record order |
| `PriceSpread.Min` | src/components/PriceTable.tsx:22 | `Math.min` of a non-empty list is one of its elements and is at most every element |
| `PriceSpread.Max` | src/components/PriceTable.tsx:23 | `Math.max` of a non-empty list is one of its elements and is at least every element |
| `PriceSpread.Spread` | src/components/PriceTable.tsx:22-26 | definition of `priceDiff` before formatting; properties in `PriceSpread.SpreadNonNegative`, `PriceSpread.SpreadInverse` and `PriceSpread.SpreadOrderIndependent` |
| `PriceSpread.TokenSpread` | src/components/PriceTable.tsx:17-26 | the spread of a token's records; properties in `PriceSpread.SpreadFewerThanTwo` and `PriceSpread.TokenSpreadPermutation` |
| `PriceSpread.SpreadFewerThanTwo` | src/components/PriceTable.tsx:24-26 | with fewer than two valid prices the spread is 0 |
| `PriceSpread.SpreadNonNegative` | src/components/PriceTable.tsx:22-25 | the spread is never negative; with two or more valid prices it is 0 exactly when they are all equal |
| `PriceSpread.SpreadInverse` | src/components/PriceTable.tsx:22-25 | the highest valid price is the lowest one raised by the spread; the divisor is the positive minimum |
| `PriceSpread.MinMaxBySet` | src/components/PriceTable.tsx:22-23 | min and max depend only on which values occur |
| `PriceSpread.SpreadOrderIndependent` | src/components/PriceTable.tsx:22-23 | the spread depends only on the multiset of valid prices |
| `PriceSpread.ValidPricesPermutation` | src/components/PriceTable.tsx:18-20 | permuted records give permuted valid prices |
| `PriceSpread.TokenSpreadPermutation` | src/components/PriceTable.tsx:17-26 | reordering a token's records leaves its spread unchanged |
| `PriceSpread.SpreadHighlightRule` | src/components/PriceTable.tsx:46-48 | the spread cell's `> 1` test is the grid's significance rule and holds exactly when the spread is at least 1.005 |
| `PriceSpread.SpreadHighlighted` | src/components/PriceTable.tsx:46-48 | definition of the spread cell's style; properties in `PriceSpread.SpreadHighlightRule` |
| `PriceSpread.MakeSpreadBlock` | src/components/PriceTable.tsx:28-53 | a token's block has a row for every record, and carries the label of the first record, the spread and its emphasis |
| `PriceSpread.SpreadBlocks` | src/components/PriceTable.tsx:17-56 | one block per listed token id; its rows are that token's group, and it is that group's block (first record's label, the group's spread and emphasis) |
| `PriceSpread.SpreadTable` | src/components/PriceTable.tsx:17-56 | one block per token id, showing the spread and emphasis of that token's group |
| `PriceSpread.SpreadBlocksRows` | src/components/PriceTable.tsx:28 | the blocks hold as many rows as the listed groups hold records |
| `PriceSpread.EveryRecordHasARow` | src/components/PriceTable.tsx:28 | every record yields a row, including those with invalid prices |
| `Dashboard.Home.constructor` | pages/index.tsx:22-23 | the state starts with no tokens and no prices |
| `Dashboard.Home.Refresh` | pages/index.tsx:26-37 | when both fetches succeed both lists are replaced; when either fails, neither changes |
| `Dashboard.LookupToken` | pages/index.tsx:62 | nothing exactly when no token has the id; otherwise the first token with that id |
| `Dashboard.SymbolCell` | pages/index.tsx:65 | the symbol cell is empty when no token matches, and shows the first matching token's symbol otherwise |
| `Dashboard.RowOf` | pages/index.tsx:62-72 | definition of one row; properties in `Dashboard.SymbolCell` and `Dashboard.FirstTokenWins` |
| `Dashboard.Rows` | pages/index.tsx:61-74 | one row per price record, row `i` from record `i` |
| `Dashboard.RowsAppend` | pages/index.tsx:61 | rendering keeps input order across concatenation |
| `Dashboard.FirstTokenWins` | pages/index.tsx:62 | of two tokens with the same id, the row shows the earlier one's symbol |
| `ArbitrageTable.StatusColour` | src/components/ArbitrageTable.tsx:60-62 | blue exactly for `detected`, green exactly for `executed`, red for every other string |
| `ArbitrageTable.RowOf` | src/components/ArbitrageTable.tsx:46-68 | definition of one row; properties in `ArbitrageTable.StatusColour` and `ArbitrageTable.RowsKeepOrder` |
| `ArbitrageTable.Rows` | src/components/ArbitrageTable.tsx:45-69 | one row per opportunity, row `i` from opportunity `i`, with no filtering or sorting |
| `ArbitrageTable.RowsKeepOrder` | src/components/ArbitrageTable.tsx:47-62 | row `i` shows opportunity `i`'s own token symbol and name, profit and status colour |
| `BadgeTable.BadgeColour` | components/PriceTable.tsx:52-54 | the badge is blue exactly for `detected`, green exactly for `executed`, red for every other string |
| `BadgeTable.BadgeAgreesWithStatusColour` | components/PriceTable.tsx:53 | the badge colour equals the span colour of src/components/ArbitrageTable.tsx on every status |
| `BadgeTable.RowOf` | components/PriceTable.tsx:40-59 | definition of one row; properties in `BadgeTable.BadgeColour` and `BadgeTable.SameAsArbitrageTable` |
| `BadgeTable.Rows` | components/PriceTable.tsx:39-60 | one row per opportunity, row `i` from opportunity `i` |
| `BadgeTable.SameAsArbitrageTable` | components/PriceTable.tsx:39-60 | both opportunity tables render the same rows in the same order with the same colours |

## Left out

- Float formatting: the text of `toFixed(6)` for prices and gas fees, of `parseFloat(opp.profit).toFixed(2)` in both opportunity tables, and of `toFixed(2)` in the deviation and spread cells is not modelled. Prices and profits are carried as parsed (`Option<real>`), and the deviation and spread cells hold the exact value; only the rounded value that the emphasis tests read back is modelled (`Decimal.RoundToCents`).
- `toFixed(2)` of a value of 1e21 or more writes an exponent. This is not modelled.
- `Decimal.IntToString`: follows JavaScript's text for integers below 1e21 in absolute value only. Above that JavaScript writes an exponent (`1e+21`), and a token id above 2^53 is not exact in a JavaScript number.
- Doubles: every number is an exact real, so IEEE rounding is not modelled.
- `parseFloat`: only its outcome is modelled (a number, or NaN). Its reading of a numeric prefix, of `Infinity` strings, and of signed zero is not modelled. A column price of `-0` would flip the sign of the infinity.
- `new URL(rpc).hostname` and `new Date(...).toLocaleString()` are library calls. Their text and their exceptions on malformed input are not modelled. Rows and columns keep the full URL and the raw timestamp.
- `Object.entries` order: the language fixes it, but the model leaves it open as the parameter `order` of the grid and the spread table, and every property holds for any order that lists each token id once.
- The `!Array.isArray(prices)` test: Dafny values are typed sequences, so only the empty-list branch is modelled.
- `axios.get`, `Promise.all`, `setInterval`/`clearInterval` and `console.error` are I/O and timing. Only their outcome (both fetches fetched, or one failed) is an input to `Dashboard.Home.Refresh`. A response whose data is not an array is not modelled.
- Rendering (JSX, React, `rowSpan`, Mantine components and styles, table headers, row keys) is UI and is not modelled, beyond which cells hold what.
- components/PriceTable.tsx uses `Text` without importing it, so `Text` there is not a Mantine component: in a browser it resolves to the DOM's `Text` node constructor, and during server rendering it is undefined. That table does not render as written. The model shows the cells it evidently intends.
- src/components/PriceTable.tsx is a fragment. Its `groupedPrices` is assumed to be the grouping of src/pages/index.tsx, and its unseen part (including any empty-list branch) is not part of this model.
- The opportunity tables declare `token` as always present. The model keeps that, so the effect of a missing token (a runtime error) is not modelled.
- src/pages/_app.tsx (theme configuration) and next.config.js (rewrite configuration) are not part of this model.
