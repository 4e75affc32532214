/** The opportunities table of components/PriceTable.tsx: the same table as
    src/components/ArbitrageTable.tsx, with the status shown in a Mantine `Badge` whose colour is
    chosen by its own copy of the status test. */
module BadgeTable {
  import opened Wrappers
  import ArbitrageTable

  type Opportunity = ArbitrageTable.Opportunity
  type Colour = ArbitrageTable.Colour

  /** The `Badge`'s `color`: `'blue'` for detected, `'green'` for executed, `'red'` for anything else. */
  function BadgeColour(status: string): (c: Colour)
    ensures c == ArbitrageTable.Blue <==> status == "detected"
    ensures c == ArbitrageTable.Green <==> status == "executed"
    ensures c == ArbitrageTable.Red <==> status != "detected" && status != "executed"
  {
    if status == "detected" then ArbitrageTable.Blue
    else if status == "executed" then ArbitrageTable.Green
    else ArbitrageTable.Red
  }

  /** The two copies of the status test agree on every status string. */
  lemma BadgeAgreesWithStatusColour(status: string)
    ensures BadgeColour(status) == ArbitrageTable.StatusColour(status)
  {
  }

  datatype Row = Row(
    key: int,
    symbol: string,
    name: string,
    buyPrice: Option<real>,
    sellPrice: Option<real>,
    profit: Option<real>,
    buyRpc: string,
    sellRpc: string,
    gasFee: Option<real>,
    status: string,
    badge: Colour,
    detectedAt: string)

  /** The symbol and name come straight from the embedded token, as in the other table. */
  function RowOf(opp: Opportunity): Row {
    Row(opp.id, opp.token.symbol, opp.token.name, opp.buyPrice, opp.sellPrice, opp.profit,
      opp.buyRpc, opp.sellRpc, opp.gasFee, opp.status, BadgeColour(opp.status), opp.createdAt)
  }

  /** `opportunities.map(...)`: one row per opportunity, in input order. */
  function Rows(opportunities: seq<Opportunity>): (rows: seq<Row>)
    ensures |rows| == |opportunities|
    ensures forall i :: 0 <= i < |rows| ==> rows[i] == RowOf(opportunities[i])
  {
    if opportunities == [] then [] else [RowOf(opportunities[0])] + Rows(opportunities[1..])
  }

  /** A row of this table shows what a row of the other one shows, with the badge in the span's colour. */
  predicate SameRow(b: Row, a: ArbitrageTable.Row) {
    b == Row(a.key, a.symbol, a.name, a.buyPrice, a.sellPrice, a.profit, a.buyRpc, a.sellRpc, a.gasFee, a.status, a.colour, a.detectedAt)
  }

  /** Both tables render the same opportunities in the same order with the same colours. */
  lemma SameAsArbitrageTable(opportunities: seq<Opportunity>)
    ensures |Rows(opportunities)| == |ArbitrageTable.Rows(opportunities)|
    ensures forall i :: 0 <= i < |opportunities| ==> SameRow(Rows(opportunities)[i], ArbitrageTable.Rows(opportunities)[i])
  {
    forall i | 0 <= i < |opportunities|
      ensures SameRow(Rows(opportunities)[i], ArbitrageTable.Rows(opportunities)[i])
    {
      BadgeAgreesWithStatusColour(opportunities[i].status);
    }
  }
}
