# DCA trade-history export: a verified Dafny model

This project models the core of the DCA ("dollar-cost averaging") trade-history
exporter. The exporter is a Deno command-line tool written in TypeScript. For a
Solana wallet it fetches the closed and open DCA orders. It keys them by order
address in a map and lists them for selection. For the chosen orders it writes
a CSV file: one row per fill (an executed trade), then running totals and the
average rate.

Modules:

- `Wrappers`: `Option` and `Result`.
- `Decimal`: exact conversion from integer base units to a decimal quantity,
  i.e. division by 10^decimals. The source does this with `BigFloat`; here it
  is a `real`.
- `StableSort`: the built-in stable `Array.prototype.sort` with a
  difference comparator. `SortBy` is the reference definition. It is proved
  sorted, a permutation and stable, and these three properties are proved to
  determine it uniquely. `SortInPlace` is an in-place array insertion sort
  proved equal to it.
- `OrderedMap`: the JavaScript `Map`. It is a list of key/value pairs in
  first-insertion order. `set` replaces the value of a key that is already
  present, without moving it.
- `DcaFetch` (src/dca-fetch.ts): token-metadata lookup, map items and the map
  of orders.
- `DcaList` (src/dca-list.ts): the options of the selection prompt.
- `Csv` (src/csv.ts): the row stream of the CSV file, the default file name,
  and the `.csv` suffix rule.

Where the source changes state step by step, the model does too:

- `MakeDcaMap` and `SetOrders` loop over the orders and reassign the map.
- `GetDcaListOptions` sorts two arrays in place.
- `MakeCsvData` sorts an array of fills in place. `FillRowsLoop` then walks it,
  accumulating the two sums.

Each of these methods is proved equal to a function (`InsertAll`,
`ListOptions`, `CsvData`). The lemmas state what the source promises about
those functions.

Two behaviours of the code are worth spelling out, because a reader might
expect otherwise:

- **No fills.** A group with no fills does not fail straight after the
  header. The code writes the blank row and both totals rows (zero) first.
  Only then does the average row divide by a zero total (`CsvDataNoFills`).
- **Token lookup errors.** A non-200 status and an empty match list end the
  run with the same exit code. The console messages differ: src/dca-fetch.ts:43
  reports the status and src/dca-fetch.ts:50 reports "no content". The model
  has one error for both, `FailedToFetchTokenInfo(mint)`.

One label is the model's own: a failed fill request is reported as
`FillFetchFailed(address)`, naming the trade. The code passes the request's
rejection through unchanged (see "## Left out").

## Model

| member | source | states |
|---|---|---|
| DcaFetch.GetTokenInfo | src/dca-fetch.ts:37-59 | The lookup succeeds exactly when the service answers status 200 with at least one match. It then yields the first match's symbol and decimals. Otherwise it fails, naming the mint. |
| DcaFetch.MakeDcaMapItemContents | src/dca-fetch.ts:66-95 | An item fails exactly when one of its two token lookups fails. The error names the input mint if that lookup failed, otherwise the output mint. On success the item carries the order's address, mints, fills and creation time, the given open flag and both tokens' metadata. Its display name is the deposited amount over 10^input decimals, the two symbols and the formatted date of `createdAt * 1000`. |
| DcaFetch.MakeDcaMapItem | src/dca-fetch.ts:66-95 | A successful item carries the order's own address and the open flag it was given. Its full contents and error cases are in `MakeDcaMapItemContents`. |
| DcaFetch.InsertAll | src/dca-fetch.ts:106-116 | The `set` calls of one pass, one per item in order. The map only grows, by at most one entry per item. Key order, last write wins and keying by address are in `InsertAllKeys`, `InsertAllLastWins`, `InsertAllUntouched` and `InsertAllFound`. |
| DcaFetch.ItemsOf | src/dca-fetch.ts:106-109 | The items of a list of orders, in order, each with the order's address and the given flag. On failure the error is that of the first order whose item fails, and every earlier order succeeded. |
| DcaFetch.SetOrders | src/dca-fetch.ts:106-109 | One `for` loop of `makeDcaMap`. It succeeds iff every order's item does, and on failure returns the first failing order's error. On success the map is the input map with each item `set` under its address in turn. |
| DcaFetch.MakeDcaMap | src/dca-fetch.ts:98-119 | Closed orders are inserted first, then open orders. The run fails iff some item fails. The error is the closed list's first failure if there is one, otherwise the open list's. On success the map is the result of the two insertion passes. |
| DcaFetch.InsertAllKeys | src/dca-fetch.ts:102-116 | After the inserts the keys are the old keys, followed by each new address not already present, in first-insertion order. Keys stay distinct. Every value stays stored under its own address. |
| DcaFetch.InsertAllLastWins | src/dca-fetch.ts:106-116 | Last write wins: an address holds the last item inserted for it. |
| DcaFetch.InsertAllUntouched | src/dca-fetch.ts:106-116 | Inserting items with other addresses leaves an address's entry unchanged. |
| DcaFetch.InsertAllFound | src/dca-fetch.ts:106-116 | Every inserted address is present and holds one of the items inserted for it. |
| DcaFetch.DcaMapProperties | src/dca-fetch.ts:98-119 | The finished map has distinct keys and stores each item under its own address. Its key order is closed addresses, then new open addresses, each in first-seen order. It has no more entries than orders. Every open order's address holds an open item. A closed order's address holds a closed item unless an open order has the same address. |
| DcaFetch.OpenEntries | src/dca-fetch.ts:112-116 | After the open pass every open order's address holds an open item. |
| DcaFetch.ClosedEntries | src/dca-fetch.ts:104-116 | A closed order whose address no open order shares keeps a closed item through the open pass. |
| OrderedMap.Set | src/dca-fetch.ts:106-116 | `Map.set` stores the new value under the key and leaves every other key's value unchanged. The key is appended only when it is new. Distinct keys stay distinct. |
| DcaList.ToListOption | src/dca-list.ts:9-14 | The option shows the item's display name and returns its address. |
| DcaList.Partition | src/dca-list.ts:21-32 | The `reduce` puts every entry's item in exactly one of the two accumulators: their lengths add up to the number of entries. `PartitionIsGroups` proves each equals an in-order filter by `isOpen`. |
| DcaList.Options | src/dca-list.ts:40-41 | `map(toListOption)`: one option per item, at the same index, showing its display name and returning its address. |
| DcaList.Arrange | src/dca-list.ts:43-49 | The list has one entry per closed and per open item, plus one separator when there are open items. `ArrangeLayout` proves where each entry goes. |
| DcaList.ListOptions | src/dca-list.ts:17-50 | The list for a map has one option per map entry, plus one separator when the map has open orders. `SeparatorIffOpen` and `ListOptionsValues` prove the rest. |
| DcaList.PartitionIsGroups | src/dca-list.ts:21-32 | The `reduce` over the map's entries yields two lists: the closed items and the open items, each in map iteration order. Each equals an independent filter of the map's values. |
| DcaList.GroupsSplit | src/dca-list.ts:21-32 | Every item lands in exactly one group (multiset union). The closed group holds only closed items and the open group only open ones. |
| DcaList.SortedGroup | src/dca-list.ts:34-38 | Sorting by `b.createdAtTimestamp - a.createdAtTimestamp` keeps the same items and orders them newest first. Orders created at the same time keep their relative order. |
| DcaList.SortedGroupsProperties | src/dca-list.ts:21-38 | The two sorted groups are the closed and open items of the map, each sorted newest first. Together they hold exactly the map's items. |
| DcaList.GetDcaListOptions | src/dca-list.ts:17-50 | The method (partition, in-place sorts, option mapping, separator) returns exactly `ListOptions` of the map. |
| DcaList.ArrangeLayout | src/dca-list.ts:40-49 | The closed options come first, in sorted order, then the open options. There is exactly one separator, at index `\|closed\|`, and only when there are open orders. The length is the sum of both groups, plus one when there are open orders. |
| DcaList.SeparatorIffOpen | src/dca-list.ts:43-49 | The list contains the separator captioned "Open (incomplete)" exactly when the map holds an open order. No other separator ever appears in the list. The two groups together have as many entries as the map. |
| DcaList.ListOptionsValues | src/dca-list.ts:17-50 | The values offered are exactly the map's addresses, each as often as it appears. |
| StableSort.SortBy | src/dca-list.ts:35-38 | The reference stable sort keeps the length. `SortByIsPermutation`, `SortByIsStable` and `StableSortIsSortBy` prove it is the stable sort. The in-place sorts of src/csv.ts:39 and src/dca-list.ts:35-38 are proved equal to it by `SortInPlace`. |
| StableSort.SortInPlace | src/dca-list.ts:35-38 | The in-place sort leaves the array equal to `SortBy` of its old contents. |
| StableSort.StableSortIsSortBy | src/csv.ts:39 | Any sorted, stable rearrangement equals `SortBy`, so the built-in stable sort and the model agree. |
| StableSort.SortByIsPermutation | src/csv.ts:39 | Sorting keeps exactly the input's elements (multiset equality). |
| StableSort.SortByIsStable | src/csv.ts:39 | Elements with equal keys keep their relative input order. |
| Csv.GatherFills | src/csv.ts:29-37 | Succeeds iff every trade's fills are available: the attached list, even an empty one, or else the fetched history. On failure it names the address of the first trade whose fetch failed, and every earlier trade's fills were available. |
| Csv.GatherFillsIsFlatten | src/csv.ts:29-37 | On success the gathered fills are the trades' own fill lists, concatenated in trade order (`.flat()`). |
| Csv.SortedFillsOrder | src/csv.ts:38-39 | The fills are written earliest first. They are exactly the gathered fills. Fills confirmed at the same time keep their gathered order. |
| Csv.HeaderRow | src/csv.ts:18-24 | The header has five text cells. `CsvDataStartsWithHeader` gives their exact text. |
| Csv.FillRow | src/csv.ts:53-59 | A fill's row is three decimals (sold, bought, rate) then two texts (date, transaction). `FillRowAmounts` and `FillRowRate` prove what the values are. |
| Csv.FillSection | src/csv.ts:41-75 | What follows the header once the fills are gathered. It can only fail by dividing by zero. When it completes it has one row per fill plus four summary rows. It never has more than that. |
| Csv.CsvData | src/csv.ts:9-76 | The stream fails with `FillFetchFailed` exactly when a fill request failed, and then holds only the header. When it completes it has one row per gathered fill plus five. The completed, zero-sold and no-fill cases are in `CsvDataCompleted`, `CsvDataZeroSold` and `CsvDataNoFills`. |
| Csv.MakeCsvData | src/csv.ts:9-76 | The generator yields exactly the rows of `CsvData`, in order, and ends with the same outcome. |
| Csv.FillRowsLoop | src/csv.ts:41-60 | The loop writes the rows of the fills before the first fill that sold nothing. It stops there, because that fill's rate divides by zero. When it runs to the end, its sums are the running totals of all fills. |
| Csv.WriteFills | src/csv.ts:41-75 | The loop followed by the blank row, the two totals rows and the average row. A division by zero ends the stream. |
| Csv.FillRowAmounts | src/csv.ts:42-59 | A fill's row has five cells. Its sold and bought quantities, times 10^decimals of the first trade's tokens, give back the fill's base units. It ends with the formatted date and the transaction id. |
| Csv.FillRowRate | src/csv.ts:56 | A fill's sold quantity is positive. In exact arithmetic its rate times that quantity is the bought quantity. |
| Csv.CsvDataStartsWithHeader | src/csv.ts:13-24 | In every case the first row is the header built from the first trade's symbols. |
| Csv.CsvDataFetchFailure | src/csv.ts:29-37 | A failed fill request ends the stream right after the header, with an error naming the first failing trade's address. |
| Csv.CsvDataCompleted | src/csv.ts:18-75 | When there are fills and each sold something, the stream completes with N + 5 rows. In order: the header, one row per fill earliest first, the blank row, the two totals and the average rate. The totals are the gathered fills' summed base units, converted with the first trade's decimals. The average is the exact quotient of the bought total over the positive sold total. |
| Csv.CsvDataZeroSold | src/csv.ts:41-56 | If some fill sold nothing, the stream fails with a division by zero. Only the fills sorted before the first such fill have rows. |
| Csv.CsvDataNoFills | src/csv.ts:62-75 | With no fills the stream is the header, the blank row and two zero totals, then a division by zero. |
| Csv.SummaryTotals | src/csv.ts:26-69 | The running sums written are the summed base units of the gathered fills, converted with the first trade's decimals. Sorting does not change them. |
| Csv.TotalGrows | src/csv.ts:45-50 | The running sums start at zero and never decrease as fills are added. |
| Csv.TotalIsConvertedRawTotal | src/csv.ts:42-50 | Adding converted amounts fill by fill equals converting the summed base units. |
| Csv.CsvDefaultName | src/csv.ts:79-88 | With several trades the default name is "IN-OUT" from the first trade's symbols. With one trade it is that trade's display name. |
| Csv.WithCsvSuffix | src/csv.ts:101-103 | The name used always ends in ".csv", compared case-insensitively. A name that already does is kept. Any other name gets ".csv" appended. |
| Csv.WithCsvSuffixIdempotent | src/csv.ts:101-103 | Applying the suffix rule twice gives the same name as applying it once. |
| Decimal.ToDecimal | src/csv.ts:42-49 | Base units become a decimal quantity. The sign is kept, and only zero converts to zero. The same conversion gives the deposited amount at src/dca-fetch.ts:72-73. |
| Decimal.ToDecimalRoundTrip | src/csv.ts:42-49 | Multiplying a converted amount by 10^decimals gives the base units back. |
| Decimal.ToDecimalIsQuotient | src/dca-fetch.ts:72-73 | The conversion is exactly base units divided by 10^decimals. |
| Decimal.ToDecimalMonotone | src/csv.ts:42-49 | Conversion preserves order and equality of amounts, in both directions. |
| Decimal.ToDecimalAdditive | src/csv.ts:45-50 | Converting a sum of base units equals summing the conversions. |

## Left out

- Network and SDK calls become parameters of the model:
  - The token-list HTTP request is `Services.tokenList`, which returns a status and the decoded `content`. The JSON decoding itself is not modelled. `Services.tokenList` is a function of the mint, so every lookup of one mint gets the same answer. The code sends a new HTTP request for each order, and a later request can fail after an earlier one for the same mint succeeded; the model does not capture that.
  - The fill-history request is `fetchHistory`. A rejected request is `None`.
  - `getClosedByUser` and `getCurrentByUser` become the two order lists passed to `MakeDcaMap`.
- `Deno.exit(ExitCodes.FailedToFetchTokenInfo)` and the `console.error` message become a `Failure(FailedToFetchTokenInfo(mint))` result.
  - src/exit-codes.ts is not part of this model, so the numeric exit code is not modelled.
  - DcaFetch.GetTokenInfo: the single error `FailedToFetchTokenInfo(mint)` does not say whether the status was not 200 or the match list was empty. The two console messages differ (src/dca-fetch.ts:43 and :50), and the model does not keep the status or the "no content" detail.
  - Because the process exits, the map built so far is dropped.
- Csv.GatherFills: the address in `FillFetchFailed(address)` is the model's own label. The code attaches nothing: the rejection from `getFillHistory` (src/csv.ts:34) passes through `Promise.all` unchanged, so its content is whatever the SDK rejected with.
- Csv.GatherFills: `Promise.all` runs the fetches concurrently and rejects with the rejection that happens first in time. The model reports the first failing trade in trade order. Timing is not modelled.
- Date formatting (`dateFormat(..., "yyyy-MM-dd HH:mm")`) is the parameter `formatDate`. The rendering of a decimal in a display name is `renderDecimal`.
- `BigFloat.toString` is not modelled. CSV decimal cells hold the exact `real` value. How `writeCSV` quotes and escapes cells is not modelled either.
- `BigFloat` division by zero becomes the outcome `Failed(DivisionByZero)`. Rows yielded before it are kept, as a generator's consumer has already received them. The exception itself and what the file then contains are not modelled.
- `10 ** decimals` is a JavaScript float, exact only up to 10^22. The model uses the exact 10^decimals.
- Decimal.ToDecimal: `BigFloat` division is modelled as exact rational division. Precision limits of the library are not modelled.
- Csv.FillRowRate: the per-fill rate `outAmount.dividedBy(inAmount)` (src/csv.ts:56) and the average `sumOut.dividedBy(sumIn)` (src/csv.ts:74) are exact quotients in the model. In the code `BigFloat` rounds them to its precision (a fill that sold 3 units and bought 1 gets a rounded 1/3), so "rate times sold equals bought" holds exactly only in the model.
- Csv.CsvDataCompleted: the average row is the exact quotient of the bought total over the sold total; the code's `sumOut.dividedBy(sumIn)` (src/csv.ts:74) rounds it to `BigFloat`'s precision.
- `Number(b.createdAtTimestamp - a.createdAtTimestamp)` may round a huge bigint difference. Its sign never changes, so the model sorts on the exact integer key.
- `new Date(createdAt * 1000)` and `confirmedAt.getTime()` are modelled as integers: seconds times 1000, and milliseconds.
- Csv.WithCsvSuffix: `toLowerCase` is modelled for ASCII letters only. Unicode case mapping is not modelled.
- The prompt for the file name (`Input.prompt`), opening and writing the file, and the checkbox prompt itself are I/O and are left out. `makeCsv` is modelled through its parts: `CsvDefaultName`, `WithCsvSuffix` and `MakeCsvData`.
- `makeDcaClient` (the RPC connection) is I/O and is left out.
- Token metadata is looked up afresh for every order; no cache is modelled, and the code has none.
- src/dca-analyse.ts, src/inputs.ts and src/missing-signatures.ts are callers and user interaction. They are not part of this model.
- `FillRowsLoop` and `SetOrders` are the source's loops, factored into their own methods. The source inlines them.
