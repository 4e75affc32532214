/** The live price comparison grid of src/pages/index.tsx: price records are grouped by token,
    the distinct RPC URLs become columns, and every record's row compares its price with the
    price its token has at each other RPC. */
module PriceComparison {
  import opened Wrappers
  import opened Seqs
  import opened Decimal

  datatype Token = Token(id: int, symbol: string, name: string)

  /** One price observation. `price` and `gasFee` are what `parseFloat` makes of the
      `price_usdc` and `gas_fee` strings: `None` stands for NaN. */
  datatype PriceRecord = PriceRecord(
    id: int,
    tokenId: int,
    token: Option<Token>,
    price: Option<real>,
    gasFee: Option<real>,
    rpcUrl: string)

  // ---------------------------------------------------------------------------
  // Grouping by token id (the `reduce` at lines 34-40)

  function TokenIdSet(prices: seq<PriceRecord>): set<int> {
    set i | 0 <= i < |prices| :: prices[i].tokenId
  }

  /** The records of token `k`, in input order. */
  function Select(prices: seq<PriceRecord>, k: int): (group: seq<PriceRecord>)
    ensures |group| <= |prices|
  {
    if prices == [] then []
    else
      var last := prices[|prices| - 1];
      Select(prices[..|prices| - 1], k) + if last.tokenId == k then [last] else []
  }

  /** The grouped record the `reduce` produces: one group per token id present. */
  function Grouping(prices: seq<PriceRecord>): map<int, seq<PriceRecord>> {
    map k | k in TokenIdSet(prices) :: Select(prices, k)
  }

  lemma {:induction false} SelectAbsent(prices: seq<PriceRecord>, k: int)
    requires k !in TokenIdSet(prices)
    ensures Select(prices, k) == []
  {
    if prices != [] {
      var prefix := prices[..|prices| - 1];
      assert forall p :: p in prefix ==> p in prices;
      SelectAbsent(prefix, k);
    }
  }

  /** What one step of the `reduce` does: create the group if missing, then push the record. */
  lemma GroupingSnoc(prices: seq<PriceRecord>, p: PriceRecord)
    ensures var g := Grouping(prices);
      Grouping(prices + [p]) == g[p.tokenId := (if p.tokenId in g then g[p.tokenId] else []) + [p]]
  {
    var s := prices + [p];
    var g := Grouping(prices);
    var g' := g[p.tokenId := (if p.tokenId in g then g[p.tokenId] else []) + [p]];
    assert s[..|s| - 1] == prices;
    assert TokenIdSet(s) == TokenIdSet(prices) + {p.tokenId} by {
      assert forall i :: 0 <= i < |prices| ==> s[i] == prices[i];
      assert s[|prices|] == p;
    }
    if p.tokenId !in TokenIdSet(prices) {
      SelectAbsent(prices, p.tokenId);
    }
    forall k | k in TokenIdSet(s) ensures Grouping(s)[k] == g'[k] {
      assert Select(s, k) == Select(prices, k) + if p.tokenId == k then [p] else [];
    }
    assert Grouping(s).Keys == g'.Keys;
  }

  /** The `reduce` of lines 34-40, as the loop it runs: the accumulator is a map that gains an
      empty array the first time a token id is seen, and every record is pushed onto its token's array. */
  method GroupByToken(prices: seq<PriceRecord>) returns (groups: map<int, seq<PriceRecord>>)
    ensures groups == Grouping(prices)
  {
    groups := map[];
    for i := 0 to |prices|
      invariant groups == Grouping(prices[..i])
    {
      var price := prices[i];
      GroupingSnoc(prices[..i], price);
      if price.tokenId !in groups {
        groups := groups[price.tokenId := []];
      }
      groups := groups[price.tokenId := groups[price.tokenId] + [price]];
      assert prices[..i + 1] == prices[..i] + [price];
    }
    assert prices[..|prices|] == prices;
  }

  /** Every group holds only records of the input with its own token id. */
  lemma {:induction false} SelectSound(prices: seq<PriceRecord>, k: int)
    ensures forall q :: q in Select(prices, k) ==> q in prices && q.tokenId == k
  {
    if prices != [] {
      var prefix := prices[..|prices| - 1];
      SelectSound(prefix, k);
      assert forall q :: q in prefix ==> q in prices;
    }
  }

  /** Every record of the input is in the group of its token id. */
  lemma {:induction false} SelectComplete(prices: seq<PriceRecord>, i: nat)
    requires i < |prices|
    ensures prices[i] in Select(prices, prices[i].tokenId)
  {
    var prefix := prices[..|prices| - 1];
    if i < |prices| - 1 {
      assert prefix[i] == prices[i];
      SelectComplete(prefix, i);
    }
  }

  /** Grouping keeps input order: the group of a concatenation is the concatenation of the groups. */
  lemma {:induction false} SelectAppend(a: seq<PriceRecord>, b: seq<PriceRecord>, k: int)
    ensures Select(a + b, k) == Select(a, k) + Select(b, k)
  {
    if b != [] {
      var b' := b[..|b| - 1];
      assert (a + b)[..|a + b| - 1] == a + b';
      SelectAppend(a, b', k);
    } else {
      assert a + b == a;
    }
  }

  /** Each record lands in exactly one group: the one keyed by its token id. */
  lemma GroupingPartitions(prices: seq<PriceRecord>)
    ensures Grouping(prices).Keys == TokenIdSet(prices)
    ensures forall i :: 0 <= i < |prices| ==> prices[i] in Grouping(prices)[prices[i].tokenId]
    ensures forall k, q :: k in Grouping(prices) && q in Grouping(prices)[k] ==> q in prices && q.tokenId == k
  {
    forall i | 0 <= i < |prices| ensures prices[i] in Grouping(prices)[prices[i].tokenId] {
      SelectComplete(prices, i);
    }
    forall k | k in Grouping(prices)
      ensures forall q :: q in Grouping(prices)[k] ==> q in prices && q.tokenId == k
    {
      SelectSound(prices, k);
    }
  }

  /** Total size of the groups listed in `keys`. */
  function SumSizes(prices: seq<PriceRecord>, keys: seq<int>): nat {
    if keys == [] then 0 else |Select(prices, keys[0])| + SumSizes(prices, keys[1..])
  }

  function Occurrences(keys: seq<int>, k: int): nat {
    if keys == [] then 0 else (if keys[0] == k then 1 else 0) + Occurrences(keys[1..], k)
  }

  lemma {:induction false} SumSizesSnoc(prices: seq<PriceRecord>, p: PriceRecord, keys: seq<int>)
    ensures SumSizes(prices + [p], keys) == SumSizes(prices, keys) + Occurrences(keys, p.tokenId)
  {
    if keys != [] {
      var s := prices + [p];
      assert s[..|s| - 1] == prices;
      SumSizesSnoc(prices, p, keys[1..]);
    }
  }

  lemma {:induction false} OccursOnce(keys: seq<int>, k: int)
    requires NoDuplicates(keys) && k in keys
    ensures Occurrences(keys, k) == 1
  {
    if keys[0] == k {
      OccursNot(keys[1..], k);
    } else {
      OccursOnce(keys[1..], k);
    }
  }

  lemma {:induction false} OccursNot(keys: seq<int>, k: int)
    requires k !in keys
    ensures Occurrences(keys, k) == 0
  {
    if keys != [] {
      OccursNot(keys[1..], k);
    }
  }

  /** The group sizes sum to the number of records, whatever order the groups are listed in. */
  lemma {:induction false} GroupSizesSum(prices: seq<PriceRecord>, keys: seq<int>)
    requires NoDuplicates(keys)
    requires forall i :: 0 <= i < |prices| ==> prices[i].tokenId in keys
    ensures SumSizes(prices, keys) == |prices|
  {
    if prices == [] {
      SumSizesEmpty(keys);
    } else {
      var prefix := prices[..|prices| - 1];
      var last := prices[|prices| - 1];
      assert prices == prefix + [last];
      GroupSizesSum(prefix, keys);
      SumSizesSnoc(prefix, last, keys);
      OccursOnce(keys, last.tokenId);
    }
  }

  lemma {:induction false} SumSizesEmpty(keys: seq<int>)
    ensures SumSizes([], keys) == 0
  {
    if keys != [] {
      SumSizesEmpty(keys[1..]);
    }
  }

  // ---------------------------------------------------------------------------
  // Columns (line 43)

  function RpcUrls(prices: seq<PriceRecord>): (urls: seq<string>)
    ensures |urls| == |prices| && forall i :: 0 <= i < |prices| ==> urls[i] == prices[i].rpcUrl
  {
    seq(|prices|, i requires 0 <= i < |prices| => prices[i].rpcUrl)
  }

  /** `uniqueRPCs`: every RPC URL of the input once, in the order of first appearance. */
  function UniqueRpcs(prices: seq<PriceRecord>): (cols: seq<string>)
    ensures NoDuplicates(cols)
    ensures forall i :: 0 <= i < |prices| ==> prices[i].rpcUrl in cols
    ensures forall c :: c in cols ==> c in RpcUrls(prices)
    ensures forall i, j :: 0 <= i < j < |cols| ==> IndexOf(RpcUrls(prices), cols[i]) < IndexOf(RpcUrls(prices), cols[j])
  {
    var urls := RpcUrls(prices);
    DistinctFirstAppearance(urls);
    Distinct(urls)
  }

  // ---------------------------------------------------------------------------
  // Cells (lines 77-98)

  /** What `(row - other) / other * 100` evaluates to in JavaScript arithmetic: a number, an infinity
      (a non-zero price over a zero column price), or NaN (a price that did not parse, or 0 / 0). */
  datatype Deviation = Finite(percent: real) | Infinite(negative: bool) | NotANumber

  /** The deviation of the row's price from the column's price, relative to the column's price. */
  function PercentDeviation(row: Option<real>, column: Option<real>): (d: Deviation)
    ensures d.Finite? <==> row.Some? && column.Some? && column.value != 0.0
  {
    match (row, column)
    case (Some(r), Some(c)) =>
      if c != 0.0 then Finite((r - c) / c * 100.0)
      else if r == 0.0 then NotANumber
      else Infinite(r < 0.0)
    case _ => NotANumber
  }

  datatype Cell = Identity | NotAvailable | Diff(deviation: Deviation)

  predicate HasRpc(rpc: string, p: PriceRecord) {
    p.rpcUrl == rpc
  }

  /** The first record of `group` whose RPC is `rpc`, as `find` returns it; nothing when none matches. */
  function RecordAt(group: seq<PriceRecord>, rpc: string): (r: Option<PriceRecord>)
    ensures r.None? <==> forall j :: 0 <= j < |group| ==> group[j].rpcUrl != rpc
    ensures r.Some? ==>
      exists i :: 0 <= i < |group| && group[i] == r.value && group[i].rpcUrl == rpc &&
        forall j :: 0 <= j < i ==> group[j].rpcUrl != rpc
  {
    FindFirst(group, p => HasRpc(rpc, p))
  }

  /** The cell of `row` under column `rpc`, given the records `group` of the row's token. */
  function Classify(row: PriceRecord, group: seq<PriceRecord>, rpc: string): (c: Cell)
    ensures c == Identity <==> rpc == row.rpcUrl
  {
    if rpc == row.rpcUrl then Identity
    else match RecordAt(group, rpc)
      case None => NotAvailable
      case Some(other) => Diff(PercentDeviation(row.price, other.price))
  }

  /** The three cases of a cell: its own RPC, an RPC the token has no record for, and otherwise the
      deviation from the first record of the token at that RPC. */
  lemma ClassifyCases(row: PriceRecord, group: seq<PriceRecord>, rpc: string)
    ensures Classify(row, group, rpc) == Identity <==> rpc == row.rpcUrl
    ensures Classify(row, group, rpc) == NotAvailable <==>
      rpc != row.rpcUrl && forall j :: 0 <= j < |group| ==> group[j].rpcUrl != rpc
    ensures Classify(row, group, rpc).Diff? ==>
      exists i :: 0 <= i < |group| && group[i].rpcUrl == rpc &&
        (forall j :: 0 <= j < i ==> group[j].rpcUrl != rpc) &&
        Classify(row, group, rpc) == Diff(PercentDeviation(row.price, group[i].price))
  {
  }

  /** A price equal to the column's non-zero price deviates by exactly zero. */
  lemma DeviationOfEqualPrices(r: real)
    requires r != 0.0
    ensures PercentDeviation(Some(r), Some(r)) == Finite(0.0)
  {
  }

  /** Against a positive column price, the deviation is positive exactly when the row price is
      higher, and negative exactly when it is lower. */
  lemma DeviationSign(r: real, c: real)
    requires c > 0.0
    ensures PercentDeviation(Some(r), Some(c)).Finite?
    ensures PercentDeviation(Some(r), Some(c)).percent > 0.0 <==> r > c
    ensures PercentDeviation(Some(r), Some(c)).percent < 0.0 <==> r < c
  {
    var d := (r - c) / c;
    assert d * c == r - c;
  }

  /** `price` raised by `percent` percent. */
  function Raise(price: real, percent: real): real {
    price * (1.0 + percent / 100.0)
  }

  /** The deviation can be undone: the column price raised by the deviation is the row price. */
  lemma DeviationInverse(r: real, c: real)
    requires c != 0.0
    ensures PercentDeviation(Some(r), Some(c)).Finite?
    ensures Raise(c, PercentDeviation(Some(r), Some(c)).percent) == r
  {
    var q := (r - c) / c;
    assert q * c == r - c;
  }

  /** Swapping row and column is not negation: the base changes, so d' = -d / (1 + d/100). */
  lemma DeviationSwap(a: real, b: real)
    requires a != 0.0 && b != 0.0
    ensures var d := PercentDeviation(Some(a), Some(b)).percent;
      1.0 + d / 100.0 != 0.0 &&
      PercentDeviation(Some(b), Some(a)) == Finite(-d / (1.0 + d / 100.0))
  {
    var d := PercentDeviation(Some(a), Some(b)).percent;
    DeviationInverse(a, b);
    var k := 1.0 + d / 100.0;
    assert b * k == a by {
      assert Raise(b, d) == a;
    }
    var e := (b - a) / a * 100.0;
    assert e * a == (b - a) * 100.0;
    assert -d / k * a == -d * b by {
      assert -d / k * k == -d;
    }
    assert d * b == (a - b) * 100.0;
  }

  /** When the cell is not a finite number. */
  lemma DeviationUndefined(row: Option<real>, column: Option<real>)
    ensures PercentDeviation(row, column) == NotANumber <==>
      row.None? || column.None? || (row.value == 0.0 && column.value == 0.0)
    ensures PercentDeviation(row, column).Infinite? <==>
      row.Some? && column.Some? && column.value == 0.0 && row.value != 0.0
  {
  }

  /** Whether a cell is shown green and bold: the formatted deviation read back must exceed 1 in
      absolute value. An infinity passes that test; NaN never does. */
  predicate Highlighted(c: Cell) {
    match c
    case Diff(Finite(d)) => IsSignificant(RoundToCents(d))
    case Diff(Infinite(_)) => true
    case _ => false
  }

  lemma HighlightRule(c: Cell)
    ensures c.Diff? && c.deviation.Finite? ==>
      (Highlighted(c) <==> c.deviation.percent >= 1.005 || c.deviation.percent <= -1.005)
    ensures c.Identity? || c.NotAvailable? || c == Diff(NotANumber) ==> !Highlighted(c)
  {
    if c.Diff? && c.deviation.Finite? {
      SignificantAfterRounding(c.deviation.percent);
    }
  }

  // ---------------------------------------------------------------------------
  // Token label (lines 67-69)

  /** `price.token?.symbol || \`Token ${price.token_id}\``: an empty symbol falls back too. */
  function Symbol(p: PriceRecord): (s: string)
    ensures p.token.Some? && p.token.value.symbol != "" ==> s == p.token.value.symbol
    ensures p.token.None? || p.token.value.symbol == "" ==> s == "Token " + IntToString(p.tokenId)
  {
    match p.token
    case Some(t) => if t.symbol != "" then t.symbol else FallbackSymbol(p.tokenId)
    case None => FallbackSymbol(p.tokenId)
  }

  function FallbackSymbol(tokenId: int): string {
    "Token " + IntToString(tokenId)
  }

  /** `price.token?.name || 'Unknown'`. */
  function Name(p: PriceRecord): (s: string)
    ensures p.token.Some? && p.token.value.name != "" ==> s == p.token.value.name
    ensures p.token.None? || p.token.value.name == "" ==> s == "Unknown"
  {
    match p.token
    case Some(t) => if t.name != "" then t.name else "Unknown"
    case None => "Unknown"
  }

  /** A fallback label names its token id unambiguously: the id can be read back from it. */
  lemma FallbackSymbolNamesToken(p: PriceRecord)
    requires p.token.None? || p.token.value.symbol == ""
    ensures |Symbol(p)| > 6 && Symbol(p)[..6] == "Token "
    ensures var digits := Symbol(p)[6..];
      (digits[0] == '-' ==> forall i :: 1 <= i < |digits| ==> IsDigit(digits[i])) &&
      (digits[0] != '-' ==> forall i :: 0 <= i < |digits| ==> IsDigit(digits[i])) &&
      ParseInt(digits) == p.tokenId
  {
    IntToStringRoundTrip(p.tokenId);
    assert Symbol(p)[6..] == IntToString(p.tokenId);
  }

  // ---------------------------------------------------------------------------
  // The rendered table

  /** One table row: a record and its cells, one per column. */
  datatype Line = Line(record: PriceRecord, cells: seq<Cell>)

  /** The rows of one token; its label cell spans them and is taken from the first record. */
  datatype Block = Block(symbol: string, name: string, lines: seq<Line>)

  datatype View = NoPriceData | Grid(columns: seq<string>, blocks: seq<Block>)

  function Cells(row: PriceRecord, group: seq<PriceRecord>, columns: seq<string>): (cells: seq<Cell>)
    ensures |cells| == |columns|
    ensures forall c :: 0 <= c < |columns| ==> cells[c] == Classify(row, group, columns[c])
  {
    if columns == [] then [] else [Classify(row, group, columns[0])] + Cells(row, group, columns[1..])
  }

  function Lines(rows: seq<PriceRecord>, group: seq<PriceRecord>, columns: seq<string>): (lines: seq<Line>)
    ensures |lines| == |rows|
    ensures forall i :: 0 <= i < |rows| ==> lines[i] == Line(rows[i], Cells(rows[i], group, columns))
  {
    if rows == [] then [] else [Line(rows[0], Cells(rows[0], group, columns))] + Lines(rows[1..], group, columns)
  }

  function MakeBlock(group: seq<PriceRecord>, columns: seq<string>): (b: Block)
    requires |group| > 0
    ensures b.symbol == Symbol(group[0]) && b.name == Name(group[0])
    ensures |b.lines| == |group|
    ensures forall i :: 0 <= i < |group| ==>
      b.lines[i].record == group[i] && |b.lines[i].cells| == |columns| &&
      forall c :: 0 <= c < |columns| ==> b.lines[i].cells[c] == Classify(group[i], group, columns[c])
  {
    Block(Symbol(group[0]), Name(group[0]), Lines(group, group, columns))
  }

  function Blocks(prices: seq<PriceRecord>, columns: seq<string>, order: seq<int>): (blocks: seq<Block>)
    requires forall i :: 0 <= i < |order| ==> order[i] in TokenIdSet(prices)
    ensures |blocks| == |order|
    ensures forall b :: 0 <= b < |order| ==>
      |Select(prices, order[b])| > 0 && blocks[b] == MakeBlock(Select(prices, order[b]), columns)
  {
    if order == [] then []
    else
      var group := Select(prices, order[0]);
      assert |group| > 0 by {
        assert order[0] in TokenIdSet(prices);
        var i :| 0 <= i < |prices| && prices[i].tokenId == order[0];
        SelectComplete(prices, i);
      }
      [MakeBlock(group, columns)] + Blocks(prices, columns, order[1..])
  }

  /** `order` lists each token id of the input exactly once. JavaScript fixes the order in which
      `Object.entries` yields the keys (non-negative integer keys ascending, then the others in
      insertion order); the model deliberately leaves it open, so what is proved holds for every order. */
  predicate EnumeratesKeys(order: seq<int>, prices: seq<PriceRecord>) {
    && NoDuplicates(order)
    && (forall i :: 0 <= i < |order| ==> order[i] in TokenIdSet(prices))
    && (forall i :: 0 <= i < |prices| ==> prices[i].tokenId in order)
  }

  /** The whole component: the message for an empty list, otherwise one block of rows per token. */
  function PriceTable(prices: seq<PriceRecord>, order: seq<int>): View
    requires EnumeratesKeys(order, prices)
  {
    if |prices| == 0 then NoPriceData
    else Grid(UniqueRpcs(prices), Blocks(prices, UniqueRpcs(prices), order))
  }

  function TotalLines(blocks: seq<Block>): nat {
    if blocks == [] then 0 else |blocks[0].lines| + TotalLines(blocks[1..])
  }

  lemma {:induction false} BlocksLines(prices: seq<PriceRecord>, columns: seq<string>, order: seq<int>)
    requires forall i :: 0 <= i < |order| ==> order[i] in TokenIdSet(prices)
    ensures TotalLines(Blocks(prices, columns, order)) == SumSizes(prices, order)
  {
    if order != [] {
      BlocksLines(prices, columns, order[1..]);
    }
  }

  /** An empty price list shows the "No price data available" message and no grid. */
  lemma EmptyMeansNoData(prices: seq<PriceRecord>, order: seq<int>)
    requires EnumeratesKeys(order, prices)
    ensures PriceTable(prices, order) == NoPriceData <==> prices == []
  {
  }

  /** Every record gets exactly one row, and every row has one cell per column. */
  lemma OneLinePerRecord(prices: seq<PriceRecord>, order: seq<int>)
    requires EnumeratesKeys(order, prices)
    requires prices != []
    ensures TotalLines(PriceTable(prices, order).blocks) == |prices|
  {
    BlocksLines(prices, UniqueRpcs(prices), order);
    GroupSizesSum(prices, order);
  }

  /** Every rendered line shows a record of the input, in the block of its own token, and its
      cell under each column is the classification against the records of that token. */
  lemma GridLine(prices: seq<PriceRecord>, order: seq<int>, b: nat, l: nat, c: nat)
    requires EnumeratesKeys(order, prices)
    requires prices != []
    requires b < |PriceTable(prices, order).blocks|
    requires l < |PriceTable(prices, order).blocks[b].lines|
    requires c < |PriceTable(prices, order).columns|
    ensures var view := PriceTable(prices, order);
      var line := view.blocks[b].lines[l];
      && line.record in prices
      && line.record.tokenId == order[b]
      && |line.cells| == |view.columns|
      && line.cells[c] == Classify(line.record, Grouping(prices)[line.record.tokenId], view.columns[c])
  {
    var group := Select(prices, order[b]);
    SelectSound(prices, order[b]);
    assert group[l] in group;
  }
}
