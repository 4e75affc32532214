/** The opportunities table of src/components/ArbitrageTable.tsx: one row per opportunity, in the
    order given, with its status coloured blue, green or red. */
module ArbitrageTable {
  import opened Wrappers

  datatype Token = Token(symbol: string, name: string)

  /** An arbitrage opportunity. The decimal fields are what `parseFloat` makes of the strings
      (`None` stands for NaN); the RPC URLs are kept whole, their host names are the runtime's. */
  datatype Opportunity = Opportunity(
    id: int,
    token: Token,
    buyPrice: Option<real>,
    sellPrice: Option<real>,
    profit: Option<real>,
    buyRpc: string,
    sellRpc: string,
    gasFee: Option<real>,
    status: string,
    createdAt: string)

  datatype Colour = Blue | Green | Red

  /** `opp.status === 'detected' ? 'blue' : opp.status === 'executed' ? 'green' : 'red'`. */
  function StatusColour(status: string): (c: Colour)
    ensures c == Blue <==> status == "detected"
    ensures c == Green <==> status == "executed"
    ensures c == Red <==> status != "detected" && status != "executed"
  {
    if status == "detected" then Blue
    else if status == "executed" then Green
    else Red
  }

  datatype Row = Row(
    key: int,
    symbol: string,
    name: string,
    buyPrice: Option<real>,
    sellPrice: Option<real>,
    profit: Option<real>,
    buyRpc: string,
    sellRpc: string,
    gasFee: Option<real>,
    status: string,
    colour: Colour,
    detectedAt: string)

  /** The symbol and name come straight from the embedded token: there is no fallback here. */
  function RowOf(opp: Opportunity): Row {
    Row(opp.id, opp.token.symbol, opp.token.name, opp.buyPrice, opp.sellPrice, opp.profit,
      opp.buyRpc, opp.sellRpc, opp.gasFee, opp.status, StatusColour(opp.status), opp.createdAt)
  }

  /** `opportunities.map(...)`: one row per opportunity, in input order, none dropped or reordered. */
  function Rows(opportunities: seq<Opportunity>): (rows: seq<Row>)
    ensures |rows| == |opportunities|
    ensures forall i :: 0 <= i < |rows| ==> rows[i].key == opportunities[i].id
    ensures forall i :: 0 <= i < |rows| ==> rows[i] == RowOf(opportunities[i])
  {
    if opportunities == [] then [] else [RowOf(opportunities[0])] + Rows(opportunities[1..])
  }

  /** A row shows its opportunity's own token, profit and status; nothing is sorted by profit. */
  lemma RowsKeepOrder(opportunities: seq<Opportunity>, i: nat)
    requires i < |opportunities|
    ensures Rows(opportunities)[i].symbol == opportunities[i].token.symbol
    ensures Rows(opportunities)[i].name == opportunities[i].token.name
    ensures Rows(opportunities)[i].profit == opportunities[i].profit
    ensures Rows(opportunities)[i].colour == StatusColour(opportunities[i].status)
  {
  }
}
