/** The dashboard page of pages/index.tsx: the component state holds the fetched tokens and price
    records, a refresh replaces both or neither, and the table shows one row per price record with
    the symbol of the first token whose id matches. */
module Dashboard {
  import opened Wrappers
  import opened Seqs

  datatype Token = Token(id: int, name: string, symbol: string, contractAddress: string)

  /** A price record as fetched; the decimal fields are shown as the strings they arrive as. */
  datatype PriceRecord = PriceRecord(id: int, tokenId: int, priceUsdc: string, gasFee: string, rpcUrl: string, createdAt: string)

  /** The outcome of one request of `Promise.all`: its data, or an error. */
  datatype Fetch<T> = Fetched(data: T) | Failed

  /** The component state of `Home`: `tokens` and `prices`, both empty at first. */
  class Home {
    var tokens: seq<Token>
    var prices: seq<PriceRecord>

    constructor ()
      ensures tokens == [] && prices == []
    {
      tokens := [];
      prices := [];
    }

    /** One run of `fetchData`: when both requests succeed both lists are replaced; when either
        fails the error is only logged and the previous state stays. */
    method Refresh(tokensResponse: Fetch<seq<Token>>, pricesResponse: Fetch<seq<PriceRecord>>)
      modifies this
      ensures tokensResponse.Fetched? && pricesResponse.Fetched? ==>
        tokens == tokensResponse.data && prices == pricesResponse.data
      ensures tokensResponse.Failed? || pricesResponse.Failed? ==>
        tokens == old(tokens) && prices == old(prices)
    {
      if tokensResponse.Fetched? && pricesResponse.Fetched? {
        tokens := tokensResponse.data;
        prices := pricesResponse.data;
      }
    }
  }

  predicate HasId(tokenId: int, t: Token) {
    t.id == tokenId
  }

  /** `tokens.find(t => t.id === price.token_id)`. */
  function LookupToken(tokens: seq<Token>, tokenId: int): (r: Option<Token>)
    ensures r.None? <==> forall j :: 0 <= j < |tokens| ==> tokens[j].id != tokenId
    ensures r.Some? ==>
      exists i :: 0 <= i < |tokens| && tokens[i] == r.value && r.value.id == tokenId &&
        forall j :: 0 <= j < i ==> tokens[j].id != tokenId
  {
    FindFirst(tokens, t => HasId(tokenId, t))
  }

  /** `{token?.symbol}`: an absent token renders as an empty cell. */
  function SymbolCell(tokens: seq<Token>, tokenId: int): (s: string)
    ensures (forall j :: 0 <= j < |tokens| ==> tokens[j].id != tokenId) ==> s == ""
    ensures forall i ::
      (0 <= i < |tokens| && tokens[i].id == tokenId && forall j :: 0 <= j < i ==> tokens[j].id != tokenId)
      ==> s == tokens[i].symbol
  {
    match LookupToken(tokens, tokenId)
    case Some(t) => t.symbol
    case None => ""
  }

  /** One table row: symbol, `$` and the price string, `$` and the gas fee string, the RPC URL and
      the creation time (its locale formatting is the runtime's). */
  datatype Row = Row(key: int, symbol: string, price: string, gasFee: string, rpcUrl: string, updatedAt: string)

  function RowOf(tokens: seq<Token>, price: PriceRecord): Row {
    Row(price.id, SymbolCell(tokens, price.tokenId), "$" + price.priceUsdc, "$" + price.gasFee, price.rpcUrl, price.createdAt)
  }

  /** `prices.map(...)`: one row per price record, in input order. */
  function Rows(tokens: seq<Token>, prices: seq<PriceRecord>): (rows: seq<Row>)
    ensures |rows| == |prices|
    ensures forall i :: 0 <= i < |prices| ==> rows[i] == RowOf(tokens, prices[i])
  {
    if prices == [] then [] else [RowOf(tokens, prices[0])] + Rows(tokens, prices[1..])
  }

  /** Rendering distributes over concatenation: the rows of later records follow those of earlier ones. */
  lemma {:induction false} RowsAppend(tokens: seq<Token>, a: seq<PriceRecord>, b: seq<PriceRecord>)
    ensures Rows(tokens, a + b) == Rows(tokens, a) + Rows(tokens, b)
  {
    if a == [] {
      assert a + b == b;
    } else {
      assert (a + b)[1..] == a[1..] + b;
      RowsAppend(tokens, a[1..], b);
    }
  }

  /** Two tokens with the same id: the row shows the symbol of the earlier one. */
  lemma FirstTokenWins(tokens: seq<Token>, i: nat, j: nat)
    requires i < j < |tokens| && tokens[i].id == tokens[j].id
    requires forall k :: 0 <= k < i ==> tokens[k].id != tokens[i].id
    ensures SymbolCell(tokens, tokens[j].id) == tokens[i].symbol
  {
  }
}
