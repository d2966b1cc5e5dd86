/**
 * The CSV export of a group of orders trading the same pair (src/csv.ts):
 * the fills of every order gathered in order and sorted by confirmation
 * time, one row per fill with running totals, then the summary rows; the
 * default file name and the ".csv" suffix rule.
 */
module Csv {
  import opened Wrappers
  import opened Decimal
  import opened StableSort
  import opened DcaFetch

  /** A CSV cell: text, or an exact decimal quantity (its text rendering is not modelled). */
  datatype Cell = Text(text: string) | Dec(value: real)

  type Row = seq<Cell>

  /**
   * Why the row stream stops early: a trade's fill history could not be
   * fetched, or a decimal division had a zero divisor.
   */
  datatype CsvError = FillFetchFailed(dcaAddress: string) | DivisionByZero

  /** How the row stream ended. */
  datatype Outcome = Completed | Failed(error: CsvError)

  // ---------------------------------------------------------------- fills

  /**
   * The fills of one trade: the list already attached to it (even an empty
   * one), otherwise the ledger's history for its address; `None` is a
   * rejected request.
   */
  function FillsOf(trade: Item, fetchHistory: string -> Option<seq<Fill>>): (fills: Option<seq<Fill>>) {
    match trade.fills
    case Some(fills) => Some(fills)
    case None => fetchHistory(trade.dcaAddress)
  }

  /** Concatenation of a list of lists, in order. */
  function Flatten(lists: seq<seq<Fill>>): (r: seq<Fill>) {
    if lists == [] then [] else lists[0] + Flatten(lists[1..])
  }

  /**
   * `Promise.all(trades.map(...)).flat()`, resolved in trade order: every
   * trade's fills concatenated, or the error of the first trade whose fills
   * could not be obtained.
   */
  function GatherFills(trades: seq<Item>, fetchHistory: string -> Option<seq<Fill>>): (r: Result<seq<Fill>, CsvError>)
    ensures r.Success? <==> forall i :: 0 <= i < |trades| ==> FillsOf(trades[i], fetchHistory).Some?
    ensures r.Failure? ==> exists i :: (
      && 0 <= i < |trades|
      && FillsOf(trades[i], fetchHistory).None?
      && r.error == FillFetchFailed(trades[i].dcaAddress)
      && forall t :: 0 <= t < i ==> FillsOf(trades[t], fetchHistory).Some?)
  {
    if trades == [] then Success([])
    else
      match FillsOf(trades[0], fetchHistory)
      case None => Failure(FillFetchFailed(trades[0].dcaAddress))
      case Some(fills) =>
        var rest := GatherFills(trades[1..], fetchHistory);
        assert forall i :: 1 <= i < |trades| ==> trades[i] == trades[1..][i - 1];
        match rest
        case Failure(e) =>
          var i :| && 0 <= i < |trades[1..]|
                   && FillsOf(trades[1..][i], fetchHistory).None?
                   && e == FillFetchFailed(trades[1..][i].dcaAddress)
                   && forall t :: 0 <= t < i ==> FillsOf(trades[1..][t], fetchHistory).Some?;
          assert forall t :: 0 <= t < i + 1 ==> FillsOf(trades[t], fetchHistory).Some? by {
            assert forall t :: 1 <= t < i + 1 ==> trades[t] == trades[1..][t - 1];
          }
          Failure(e)
        case Success(more) => Success(fills + more)
  }

  /** On success the gathered fills are the trades' own lists, concatenated in trade order. */
  lemma {:induction false} GatherFillsIsFlatten(trades: seq<Item>, fetchHistory: string -> Option<seq<Fill>>)
    requires GatherFills(trades, fetchHistory).Success?
    ensures GatherFills(trades, fetchHistory).value
      == Flatten(seq(|trades|, i requires 0 <= i < |trades| && GatherFills(trades, fetchHistory).Success? =>
           FillsOf(trades[i], fetchHistory).value))
  {
    if trades != [] {
      GatherFillsIsFlatten(trades[1..], fetchHistory);
      var lists := seq(|trades|, i requires 0 <= i < |trades| && GatherFills(trades, fetchHistory).Success? =>
        FillsOf(trades[i], fetchHistory).value);
      var tail := seq(|trades[1..]|, i requires 0 <= i < |trades[1..]| && GatherFills(trades[1..], fetchHistory).Success? =>
        FillsOf(trades[1..][i], fetchHistory).value);
      assert lists[1..] == tail;
    }
  }

  /** The sort key of `allFills.sort`: the confirmation time, earliest first. */
  function FillTime(fill: Fill): (millis: int) {
    fill.confirmedAt
  }

  // ---------------------------------------------------------------- totals

  /** The base units on one side of a fill: sold (`in`) or bought (`out`). */
  function Amount(fill: Fill, inSide: bool): (n: nat) {
    if inSide then fill.inAmount else fill.outAmount
  }

  /** Sum of the base units on one side of the fills. */
  function RawTotal(fills: seq<Fill>, inSide: bool): (n: nat) {
    if fills == [] then 0 else RawTotal(fills[..|fills| - 1], inSide) + Amount(fills[|fills| - 1], inSide)
  }

  /** Sum, fill by fill, of the decimal quantities on one side, as the running sum adds them. */
  function Total(fills: seq<Fill>, inSide: bool, decimals: nat): (v: real) {
    if fills == [] then 0.0
    else Total(fills[..|fills| - 1], inSide, decimals) + ToDecimal(Amount(fills[|fills| - 1], inSide), decimals)
  }

  /** The running sum is the conversion of the summed base units. */
  lemma {:induction false} TotalIsConvertedRawTotal(fills: seq<Fill>, inSide: bool, decimals: nat)
    ensures Total(fills, inSide, decimals) == ToDecimal(RawTotal(fills, inSide), decimals)
  {
    if fills != [] {
      var front := fills[..|fills| - 1];
      TotalIsConvertedRawTotal(front, inSide, decimals);
      ToDecimalAdditive(RawTotal(front, inSide), Amount(fills[|fills| - 1], inSide), decimals);
    }
  }

  /** Amounts are never negative, so the running sum never decreases. */
  lemma {:induction false} TotalGrows(fills: seq<Fill>, inSide: bool, decimals: nat, i: nat, j: nat)
    requires i <= j <= |fills|
    ensures 0.0 <= Total(fills[..i], inSide, decimals) <= Total(fills[..j], inSide, decimals)
    decreases j
  {
    if i < j {
      TotalGrows(fills, inSide, decimals, i, j - 1);
      assert fills[..j][..j - 1] == fills[..j - 1];
    } else if j > 0 {
      TotalGrows(fills, inSide, decimals, 0, j - 1);
      assert fills[..j][..j - 1] == fills[..j - 1];
    } else {
      assert fills[..0] == [];
    }
  }

  lemma {:induction false} TotalInsert(fills: seq<Fill>, x: Fill, key: Fill -> int, inSide: bool, decimals: nat)
    ensures Total(Insert(fills, x, key), inSide, decimals)
      == Total(fills, inSide, decimals) + ToDecimal(Amount(x, inSide), decimals)
  {
    if fills != [] && key(fills[|fills| - 1]) > key(x) {
      var front := fills[..|fills| - 1];
      TotalInsert(front, x, key, inSide, decimals);
      var r := Insert(front, x, key) + [fills[|fills| - 1]];
      assert r[..|r| - 1] == Insert(front, x, key);
    } else {
      var r := fills + [x];
      assert r[..|r| - 1] == fills;
    }
  }

  /** Sorting the fills does not change the totals. */
  lemma {:induction false} TotalSortBy(fills: seq<Fill>, key: Fill -> int, inSide: bool, decimals: nat)
    ensures Total(SortBy(fills, key), inSide, decimals) == Total(fills, inSide, decimals)
  {
    if fills != [] {
      var front := fills[..|fills| - 1];
      TotalSortBy(front, key, inSide, decimals);
      TotalInsert(SortBy(front, key), fills[|fills| - 1], key, inSide, decimals);
    }
  }

  // ---------------------------------------------------------------- rows

  /** The header: sold symbol, bought symbol, rate, date and transaction columns. */
  function HeaderRow(first: Item): (row: Row)
    ensures |row| == 5 && forall i :: 0 <= i < 5 ==> row[i].Text?
  {
    var inSym, outSym := first.inTokenInfo.symbol, first.outTokenInfo.symbol;
    [Text(inSym + " out"), Text(outSym + " in"), Text("Rate (" + outSym + " per " + inSym + ")"),
     Text("DateTime"), Text("Transaction")]
  }

  /** The quantity sold by a fill, with the first trade's input decimals. */
  function InValue(first: Item, fill: Fill): (v: real) {
    ToDecimal(fill.inAmount, first.inTokenInfo.decimals)
  }

  /** The quantity bought by a fill, with the first trade's output decimals. */
  function OutValue(first: Item, fill: Fill): (v: real) {
    ToDecimal(fill.outAmount, first.outTokenInfo.decimals)
  }

  /** The row of one fill; its rate divides by the quantity sold, which must not be zero. */
  function FillRow(first: Item, fill: Fill, formatDate: int -> string): (row: Row)
    requires fill.inAmount > 0
    ensures |row| == 5 && row[0].Dec? && row[1].Dec? && row[2].Dec? && row[3].Text? && row[4].Text?
  {
    [Dec(InValue(first, fill)), Dec(OutValue(first, fill)),
     Dec(OutValue(first, fill) / InValue(first, fill)),
     Text(formatDate(fill.confirmedAt)), Text(fill.txId)]
  }

  /**
   * A fill's row holds the quantities sold and bought, each the fill's base
   * units over 10^decimals of the first trade's tokens, then its date and
   * transaction.
   */
  lemma FillRowAmounts(first: Item, fill: Fill, formatDate: int -> string)
    requires fill.inAmount > 0
    ensures var row := FillRow(first, fill, formatDate);
      && |row| == 5
      && row[0].value * Pow10(first.inTokenInfo.decimals) as real == fill.inAmount as real
      && row[1].value * Pow10(first.outTokenInfo.decimals) as real == fill.outAmount as real
      && row[3] == Text(formatDate(fill.confirmedAt))
      && row[4] == Text(fill.txId)
  {
    ToDecimalRoundTrip(fill.inAmount, first.inTokenInfo.decimals);
    ToDecimalRoundTrip(fill.outAmount, first.outTokenInfo.decimals);
  }

  /** A fill's rate is what turns its (non-zero) quantity sold into its quantity bought. */
  lemma FillRowRate(first: Item, fill: Fill, formatDate: int -> string)
    requires fill.inAmount > 0
    ensures var row := FillRow(first, fill, formatDate);
      && row[0].value > 0.0
      && row[2].value * row[0].value == row[1].value
  {
    RateTimesDivisor(OutValue(first, fill), InValue(first, fill));
  }

  lemma RateTimesDivisor(dividend: real, divisor: real)
    requires divisor != 0.0
    ensures (dividend / divisor) * divisor == dividend
  {
  }

  /** The rows of `fills` in order. */
  function FillRows(first: Item, fills: seq<Fill>, formatDate: int -> string): (rows: seq<Row>)
    requires forall i :: 0 <= i < |fills| ==> fills[i].inAmount > 0
    ensures |rows| == |fills|
    ensures forall i :: 0 <= i < |fills| ==> rows[i] == FillRow(first, fills[i], formatDate)
  {
    seq(|fills|, i requires 0 <= i < |fills| && fills[i].inAmount > 0 => FillRow(first, fills[i], formatDate))
  }

  function TotalRow(symbol: string, sum: real): (row: Row) {
    [Text("Total (" + symbol + ")"), Dec(sum)]
  }

  function AverageRow(first: Item, average: real): (row: Row) {
    [Text("Average rate (" + first.outTokenInfo.symbol + " per " + first.inTokenInfo.symbol + ")"), Dec(average)]
  }

  /** The index of the first fill that sold nothing, or `|fills|` when there is none. */
  function FirstZeroIn(fills: seq<Fill>): (k: nat)
    ensures k <= |fills|
    ensures forall i :: 0 <= i < k ==> fills[i].inAmount > 0
    ensures k < |fills| ==> fills[k].inAmount == 0
  {
    if fills == [] then 0
    else if fills[0].inAmount == 0 then 0
    else
      var k := FirstZeroIn(fills[1..]);
      assert forall i :: 1 <= i < k + 1 ==> fills[i] == fills[1..][i - 1];
      k + 1
  }

  /** The fills in the order they are written: gathered, then sorted earliest first. */
  function SortedFills(allFills: seq<Fill>): (sorted: seq<Fill>) {
    SortBy(allFills, FillTime)
  }

  /**
   * The rows written after the header for the sorted fills, and how the
   * stream ends: a fill that sold nothing stops it before that fill's row;
   * with no fills at all the average row divides by a zero total.
   */
  function FillSection(first: Item, fills: seq<Fill>, formatDate: int -> string): (r: (seq<Row>, Outcome))
    ensures r.1.Failed? ==> r.1.error == DivisionByZero
    ensures r.1.Completed? ==> |fills| > 0 && |r.0| == |fills| + 4
    ensures |r.0| <= |fills| + 4
  {
    var k := FirstZeroIn(fills);
    if k < |fills| then (FillRows(first, fills[..k], formatDate), Failed(DivisionByZero))
    else
      var sumIn := Total(fills, true, first.inTokenInfo.decimals);
      var sumOut := Total(fills, false, first.outTokenInfo.decimals);
      var summary := [[], TotalRow(first.inTokenInfo.symbol, sumIn), TotalRow(first.outTokenInfo.symbol, sumOut)];
      if sumIn == 0.0 then (FillRows(first, fills, formatDate) + summary, Failed(DivisionByZero))
      else (FillRows(first, fills, formatDate) + summary + [AverageRow(first, sumOut / sumIn)], Completed)
  }

  /**
   * The rows written for a group of trades and how the stream ends. The
   * header comes first in every case; a failed fill request ends the stream
   * right after it.
   */
  function CsvData(trades: seq<Item>, fetchHistory: string -> Option<seq<Fill>>, formatDate: int -> string)
    : (r: (seq<Row>, Outcome))
    requires |trades| > 0
    ensures GatherFills(trades, fetchHistory).Failure? <==> r.1.Failed? && r.1.error.FillFetchFailed?
    ensures GatherFills(trades, fetchHistory).Failure? ==> |r.0| == 1
    ensures r.1.Completed? ==> |r.0| == |GatherFills(trades, fetchHistory).value| + 5
  {
    var header := HeaderRow(trades[0]);
    match GatherFills(trades, fetchHistory)
    case Failure(e) => ([header], Failed(e))
    case Success(allFills) =>
      var section := FillSection(trades[0], SortedFills(allFills), formatDate);
      ([header] + section.0, section.1)
  }

  /**
   * The `for` loop of `makeCsvData` over the sorted fills: the rows of the
   * fills in order and the running sums. It stops at the first fill that
   * sold nothing, whose rate would divide by zero, without writing its row.
   */
  method FillRowsLoop(first: Item, allFills: array<Fill>, formatDate: int -> string)
    returns (rows: seq<Row>, sumIn: real, sumOut: real, stopped: bool)
    ensures var k := FirstZeroIn(allFills[..]);
      && (stopped <==> k < allFills.Length)
      && rows == FillRows(first, allFills[..k], formatDate)
      && (!stopped ==> sumIn == Total(allFills[..], true, first.inTokenInfo.decimals))
      && (!stopped ==> sumOut == Total(allFills[..], false, first.outTokenInfo.decimals))
  {
    var inDecimals, outDecimals := first.inTokenInfo.decimals, first.outTokenInfo.decimals;
    ghost var fills := allFills[..];
    rows, sumIn, sumOut := [], 0.0, 0.0;
    for i := 0 to allFills.Length
      invariant forall t :: 0 <= t < i ==> fills[t].inAmount > 0
      invariant rows == FillRows(first, fills[..i], formatDate)
      invariant sumIn == Total(fills[..i], true, inDecimals)
      invariant sumOut == Total(fills[..i], false, outDecimals)
    {
      var fill := allFills[i];
      var inAmount := ToDecimal(fill.inAmount, inDecimals);
      sumIn := sumIn + inAmount;
      var outAmount := ToDecimal(fill.outAmount, outDecimals);
      sumOut := sumOut + outAmount;
      assert fills[..i + 1][..i] == fills[..i];

      if inAmount == 0.0 {
        return rows, sumIn, sumOut, true;
      }
      // row per fill
      rows := rows + [FillRow(first, fill, formatDate)];
      assert FillRows(first, fills[..i + 1], formatDate) == FillRows(first, fills[..i], formatDate) + [FillRow(first, fill, formatDate)];
    }
    assert fills[..allFills.Length] == fills;
    stopped := false;
  }

  /** The loop over the sorted fills, then the summary rows. */
  method WriteFills(first: Item, allFills: array<Fill>, formatDate: int -> string)
    returns (rows: seq<Row>, outcome: Outcome)
    ensures (rows, outcome) == FillSection(first, allFills[..], formatDate)
  {
    var sumIn, sumOut, stopped;
    rows, sumIn, sumOut, stopped := FillRowsLoop(first, allFills, formatDate);
    if stopped {
      return rows, Failed(DivisionByZero);
    }
    assert allFills[..][..allFills.Length] == allFills[..];

    // empty row, sums of inputs and outputs
    rows := rows + [[], TotalRow(first.inTokenInfo.symbol, sumIn), TotalRow(first.outTokenInfo.symbol, sumOut)];
    // average rate
    if sumIn == 0.0 {
      return rows, Failed(DivisionByZero);
    }
    rows := rows + [AverageRow(first, sumOut / sumIn)];
    outcome := Completed;
  }

  /**
   * `makeCsvData`: the rows yielded, in order, and how the generator ends.
   * The fill requests are `fetchHistory`, date formatting is `formatDate`.
   */
  method MakeCsvData(trades: seq<Item>, fetchHistory: string -> Option<seq<Fill>>, formatDate: int -> string)
    returns (rows: seq<Row>, outcome: Outcome)
    requires |trades| > 0
    ensures (rows, outcome) == CsvData(trades, fetchHistory, formatDate)
  {
    var first := trades[0];

    // header row
    rows := [HeaderRow(first)];

    var gathered := GatherFills(trades, fetchHistory);
    if gathered.Failure? {
      return rows, Failed(gathered.error);
    }
    var allFills := ToArray(gathered.value);
    // Sort, earliest first
    SortInPlace(allFills, FillTime);

    var fillRows;
    fillRows, outcome := WriteFills(first, allFills, formatDate);
    rows := rows + fillRows;
  }

  // ---------------------------------------------------------------- properties of the rows

  /** Whatever happens, the header built from the first trade's symbols is written first. */
  lemma {:induction false} CsvDataStartsWithHeader(trades: seq<Item>, fetchHistory: string -> Option<seq<Fill>>, formatDate: int -> string)
    requires |trades| > 0
    ensures var (rows, _) := CsvData(trades, fetchHistory, formatDate);
      |rows| >= 1 && rows[0] == [
        Text(trades[0].inTokenInfo.symbol + " out"), Text(trades[0].outTokenInfo.symbol + " in"),
        Text("Rate (" + trades[0].outTokenInfo.symbol + " per " + trades[0].inTokenInfo.symbol + ")"),
        Text("DateTime"), Text("Transaction")]
  {
  }

  /** A failed fill request ends the stream right after the header, naming the first trade that failed. */
  lemma {:induction false} CsvDataFetchFailure(trades: seq<Item>, fetchHistory: string -> Option<seq<Fill>>, formatDate: int -> string, i: nat)
    requires i < |trades|
    requires FillsOf(trades[i], fetchHistory).None?
    requires forall t :: 0 <= t < i ==> FillsOf(trades[t], fetchHistory).Some?
    ensures CsvData(trades, fetchHistory, formatDate) == ([HeaderRow(trades[0])], Failed(FillFetchFailed(trades[i].dcaAddress)))
  {
    var r := GatherFills(trades, fetchHistory);
    var j :| && 0 <= j < |trades| && FillsOf(trades[j], fetchHistory).None?
             && r.error == FillFetchFailed(trades[j].dcaAddress)
             && forall t :: 0 <= t < j ==> FillsOf(trades[t], fetchHistory).Some?;
    assert j == i;
  }

  /**
   * When every gathered fill sold something and there is at least one, the
   * stream completes with N + 5 rows for N fills: the header, one row per
   * fill earliest first, a blank row, the two totals (the summed base units
   * of the gathered fills, converted with the first trade's decimals) and
   * the average rate, bought total over sold total.
   */
  lemma {:induction false} CsvDataCompleted(trades: seq<Item>, fetchHistory: string -> Option<seq<Fill>>, formatDate: int -> string)
    requires |trades| > 0
    requires GatherFills(trades, fetchHistory).Success?
    requires |GatherFills(trades, fetchHistory).value| > 0
    requires forall f :: f in GatherFills(trades, fetchHistory).value ==> f.inAmount > 0
    ensures var allFills := GatherFills(trades, fetchHistory).value;
      var fills := SortedFills(allFills);
      var (rows, outcome) := CsvData(trades, fetchHistory, formatDate);
      var first := trades[0];
      var sumIn := ToDecimal(RawTotal(allFills, true), first.inTokenInfo.decimals);
      var sumOut := ToDecimal(RawTotal(allFills, false), first.outTokenInfo.decimals);
      && outcome == Completed
      && |rows| == |allFills| + 5
      && sumIn > 0.0
      && var summary := [[], TotalRow(first.inTokenInfo.symbol, sumIn), TotalRow(first.outTokenInfo.symbol, sumOut)];
         rows == [HeaderRow(first)] + (FillRows(first, fills, formatDate) + summary + [AverageRow(first, sumOut / sumIn)])
  {
    var first := trades[0];
    var allFills := GatherFills(trades, fetchHistory).value;
    var fills := SortedFills(allFills);
    SortByIsPermutation(allFills, FillTime);
    forall i | 0 <= i < |fills| ensures fills[i].inAmount > 0 {
      assert fills[i] in multiset(allFills);
    }
    assert FirstZeroIn(fills) == |fills|;
    SummaryTotals(first, allFills);
    RawTotalPositive(allFills);
    var sumIn := Total(fills, true, first.inTokenInfo.decimals);
    var sumOut := Total(fills, false, first.outTokenInfo.decimals);
    assert sumIn > 0.0;
    var summary := [[], TotalRow(first.inTokenInfo.symbol, sumIn), TotalRow(first.outTokenInfo.symbol, sumOut)];
    var body := FillRows(first, fills, formatDate) + summary + [AverageRow(first, sumOut / sumIn)];
    assert FillSection(first, fills, formatDate) == (body, Completed);
  }

  /** Fills that all sold something, at least one of them, sold a positive total. */
  lemma {:induction false} RawTotalPositive(fills: seq<Fill>)
    requires |fills| > 0
    requires forall f :: f in fills ==> f.inAmount > 0
    ensures RawTotal(fills, true) > 0
  {
    assert fills[|fills| - 1] in fills;
  }

  /**
   * A fill that sold nothing stops the stream with a division by zero, and
   * only the fills sorted before it have rows.
   */
  lemma {:induction false} CsvDataZeroSold(trades: seq<Item>, fetchHistory: string -> Option<seq<Fill>>, formatDate: int -> string)
    requires |trades| > 0
    requires GatherFills(trades, fetchHistory).Success?
    requires exists f :: f in GatherFills(trades, fetchHistory).value && f.inAmount == 0
    ensures var fills := SortedFills(GatherFills(trades, fetchHistory).value);
      var k := FirstZeroIn(fills);
      && k < |fills|
      && CsvData(trades, fetchHistory, formatDate)
         == ([HeaderRow(trades[0])] + FillRows(trades[0], fills[..k], formatDate), Failed(DivisionByZero))
  {
    var allFills := GatherFills(trades, fetchHistory).value;
    var fills := SortedFills(allFills);
    var f :| f in allFills && f.inAmount == 0;
    SortByIsPermutation(allFills, FillTime);
    assert f in multiset(fills);
  }

  /** With no fills at all the summary is written with zero totals, then the average divides by zero. */
  lemma {:induction false} CsvDataNoFills(trades: seq<Item>, fetchHistory: string -> Option<seq<Fill>>, formatDate: int -> string)
    requires |trades| > 0
    requires GatherFills(trades, fetchHistory) == Success([])
    ensures CsvData(trades, fetchHistory, formatDate) == (
      [HeaderRow(trades[0]), [], TotalRow(trades[0].inTokenInfo.symbol, 0.0), TotalRow(trades[0].outTokenInfo.symbol, 0.0)],
      Failed(DivisionByZero))
  {
    var first := trades[0];
    var summary := [[], TotalRow(first.inTokenInfo.symbol, 0.0), TotalRow(first.outTokenInfo.symbol, 0.0)];
    assert SortedFills([]) == [];
    assert FillSection(first, [], formatDate) == ([] + summary, Failed(DivisionByZero));
    assert CsvData(trades, fetchHistory, formatDate) == ([HeaderRow(first)] + ([] + summary), Failed(DivisionByZero));
    assert [HeaderRow(first)] + ([] + summary) == [HeaderRow(first), [], summary[1], summary[2]];
  }

  /**
   * The fills are written earliest first; they are exactly the gathered fills,
   * and fills confirmed at the same time keep their gathered order.
   */
  lemma SortedFillsOrder(allFills: seq<Fill>)
    ensures var fills := SortedFills(allFills);
      && (forall i, j :: 0 <= i < j < |fills| ==> fills[i].confirmedAt <= fills[j].confirmedAt)
      && multiset(fills) == multiset(allFills)
      && (forall t :: WithKey(fills, FillTime, t) == WithKey(allFills, FillTime, t))
  {
    var fills := SortedFills(allFills);
    SortByIsSorted(allFills, FillTime);
    SortByIsPermutation(allFills, FillTime);
    forall i, j | 0 <= i < j < |fills| ensures fills[i].confirmedAt <= fills[j].confirmedAt {
      assert FillTime(fills[i]) <= FillTime(fills[j]);
    }
    forall t ensures WithKey(fills, FillTime, t) == WithKey(allFills, FillTime, t) {
      SortByIsStable(allFills, FillTime, t);
    }
  }

  /**
   * The totals written are the gathered fills' summed base units, converted
   * with the first trade's decimals: sorting does not change them.
   */
  lemma SummaryTotals(first: Item, allFills: seq<Fill>)
    ensures Total(SortedFills(allFills), true, first.inTokenInfo.decimals)
      == ToDecimal(RawTotal(allFills, true), first.inTokenInfo.decimals)
    ensures Total(SortedFills(allFills), false, first.outTokenInfo.decimals)
      == ToDecimal(RawTotal(allFills, false), first.outTokenInfo.decimals)
  {
    TotalSortBy(allFills, FillTime, true, first.inTokenInfo.decimals);
    TotalSortBy(allFills, FillTime, false, first.outTokenInfo.decimals);
    TotalIsConvertedRawTotal(allFills, true, first.inTokenInfo.decimals);
    TotalIsConvertedRawTotal(allFills, false, first.outTokenInfo.decimals);
  }

  // ---------------------------------------------------------------- file name

  /** `csvDefaultName`: the pair's symbols for several trades, the trade's own name for one. */
  function CsvDefaultName(trades: seq<Item>): (name: string)
    requires |trades| > 0
    ensures |trades| > 1 ==> name == trades[0].inTokenInfo.symbol + "-" + trades[0].outTokenInfo.symbol
    ensures |trades| == 1 ==> name == trades[0].displayName
  {
    var first := trades[0];
    if |trades| > 1 then first.inTokenInfo.symbol + "-" + first.outTokenInfo.symbol
    else first.displayName
  }

  /** Lower case of one character; only the ASCII letters are mapped. */
  function LowerChar(c: char): (l: char)
    ensures 'A' <= c <= 'Z' ==> 'a' <= l <= 'z'
    ensures !('A' <= c <= 'Z') ==> l == c
  {
    if 'A' <= c <= 'Z' then (c as int - 'A' as int + 'a' as int) as char else c
  }

  /** `toLowerCase`, character by character. */
  function Lower(s: string): (l: string)
    ensures |l| == |s|
    ensures forall i :: 0 <= i < |s| ==> l[i] == LowerChar(s[i])
  {
    seq(|s|, i requires 0 <= i < |s| => LowerChar(s[i]))
  }

  predicate EndsWithCsv(s: string) {
    |s| >= 4 && s[|s| - 4..] == ".csv"
  }

  /** The file name actually used: ".csv" is appended unless the name already ends with it in any case. */
  function WithCsvSuffix(name: string): (r: string)
    ensures EndsWithCsv(Lower(r))
    ensures EndsWithCsv(Lower(name)) ==> r == name
    ensures !EndsWithCsv(Lower(name)) ==> r == name + ".csv"
  {
    if !EndsWithCsv(Lower(name)) then
      LowerAppendCsv(name);
      name + ".csv"
    else name
  }

  lemma LowerAppendCsv(name: string)
    ensures Lower(name + ".csv") == Lower(name) + ".csv"
  {
    assert Lower(".csv") == ".csv";
  }

  /** Applying the rule twice names the same file as applying it once. */
  lemma WithCsvSuffixIdempotent(name: string)
    ensures WithCsvSuffix(WithCsvSuffix(name)) == WithCsvSuffix(name)
  {
  }
}
