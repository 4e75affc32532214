/** The per-token spread column of src/components/PriceTable.tsx: over the prices of a token that
    parse to a strictly positive number, how far the highest lies above the lowest, in percent of
    the lowest. The grouping is the one of src/pages/index.tsx. */
module PriceSpread {
  import opened Wrappers
  import opened Decimal
  import PriceComparison

  type PriceRecord = PriceComparison.PriceRecord

  /** `validPrices`: the parsed prices that are not NaN and are greater than zero, in record order. */
  function ValidPrices(group: seq<PriceRecord>): (v: seq<real>)
    ensures |v| <= |group|
    ensures forall i :: 0 <= i < |v| ==> v[i] > 0.0
  {
    if group == [] then []
    else
      var rest := ValidPrices(group[1..]);
      match group[0].price
      case Some(x) => if x > 0.0 then [x] + rest else rest
      case None => rest
  }

  /** A value is kept exactly when some record parses to it and it is positive. */
  lemma {:induction false} ValidPricesMembers(group: seq<PriceRecord>, x: real)
    ensures x in ValidPrices(group) <==> x > 0.0 && exists i :: 0 <= i < |group| && group[i].price == Some(x)
  {
    if group != [] {
      ValidPricesMembers(group[1..], x);
      if exists i :: 0 <= i < |group[1..]| && group[1..][i].price == Some(x) {
        var i :| 0 <= i < |group[1..]| && group[1..][i].price == Some(x);
        assert group[i + 1].price == Some(x);
      }
      if exists i :: 0 <= i < |group| && group[i].price == Some(x) {
        var i :| 0 <= i < |group| && group[i].price == Some(x);
        if i > 0 {
          assert group[1..][i - 1].price == Some(x);
        }
      }
    }
  }

  /** The filter keeps record order: filtering a concatenation concatenates the filtered parts. */
  lemma {:induction false} ValidPricesAppend(a: seq<PriceRecord>, b: seq<PriceRecord>)
    ensures ValidPrices(a + b) == ValidPrices(a) + ValidPrices(b)
  {
    if a == [] {
      assert a + b == b;
    } else {
      assert (a + b)[1..] == a[1..] + b;
      assert (a + b)[0] == a[0];
      ValidPricesAppend(a[1..], b);
    }
  }

  /** `Math.min(...v)` for a non-empty `v`. */
  function Min(v: seq<real>): (m: real)
    requires |v| > 0
    ensures m in v
    ensures forall i :: 0 <= i < |v| ==> m <= v[i]
  {
    if |v| == 1 then v[0]
    else
      var m := Min(v[1..]);
      if v[0] <= m then v[0] else m
  }

  /** `Math.max(...v)` for a non-empty `v`. */
  function Max(v: seq<real>): (m: real)
    requires |v| > 0
    ensures m in v
    ensures forall i :: 0 <= i < |v| ==> v[i] <= m
  {
    if |v| == 1 then v[0]
    else
      var m := Max(v[1..]);
      if v[0] >= m then v[0] else m
  }

  /** `priceDiff` before formatting: `(max - min) / min * 100` with two or more valid prices,
      and 0 otherwise. The divisor is a valid price, so it is positive. */
  function Spread(v: seq<real>): real
    requires forall i :: 0 <= i < |v| ==> v[i] > 0.0
  {
    if |v| >= 2 then PercentAbove(Min(v), Max(v)) else 0.0
  }

  /** How far `hi` lies above `lo`, in percent of `lo`. */
  function PercentAbove(lo: real, hi: real): real
    requires lo > 0.0
  {
    (hi - lo) / lo * 100.0
  }

  function TokenSpread(group: seq<PriceRecord>): real {
    Spread(ValidPrices(group))
  }

  lemma SpreadFewerThanTwo(group: seq<PriceRecord>)
    requires |ValidPrices(group)| < 2
    ensures TokenSpread(group) == 0.0
  {
  }

  /** The spread is never negative, and with two or more valid prices it is zero exactly when
      they are all equal. */
  lemma SpreadNonNegative(v: seq<real>)
    requires forall i :: 0 <= i < |v| ==> v[i] > 0.0
    ensures Spread(v) >= 0.0
    ensures |v| >= 2 ==> (Spread(v) == 0.0 <==> forall i :: 0 <= i < |v| ==> v[i] == v[0])
  {
    if |v| >= 2 {
      var lo, hi := Min(v), Max(v);
      assert (hi - lo) / lo >= 0.0;
      if forall i :: 0 <= i < |v| ==> v[i] == v[0] {
        assert lo == hi;
      }
      if Spread(v) == 0.0 {
        assert (hi - lo) / lo * lo == hi - lo;
        forall i | 0 <= i < |v| ensures v[i] == v[0] {
          assert lo <= v[i] <= hi;
        }
      }
    }
  }

  /** The highest valid price is the lowest one raised by the spread. */
  lemma {:induction false} SpreadInverse(v: seq<real>)
    requires forall i :: 0 <= i < |v| ==> v[i] > 0.0
    requires |v| >= 2
    ensures Max(v) == PriceComparison.Raise(Min(v), Spread(v))
  {
    var lo, hi := Min(v), Max(v);
    assert lo > 0.0;
    var s := Spread(v);
    assert s == PercentAbove(lo, hi);
    RaiseBy(lo, hi, s);
  }

  lemma RaiseBy(lo: real, hi: real, s: real)
    requires lo > 0.0 && s == PercentAbove(lo, hi)
    ensures hi == PriceComparison.Raise(lo, s)
  {
    var q := (hi - lo) / lo;
    assert q * lo == hi - lo;
    assert s / 100.0 == q;
  }

  /** Two sequences with the same elements have the same least and greatest element. */
  lemma {:induction false} MinMaxBySet(v: seq<real>, w: seq<real>)
    requires |v| > 0 && |w| > 0
    requires forall x :: x in v <==> x in w
    ensures Min(v) == Min(w) && Max(v) == Max(w)
  {
    var a, b := Min(v), Min(w);
    assert a in w && b in v;
    var i :| 0 <= i < |w| && w[i] == a;
    var j :| 0 <= j < |v| && v[j] == b;
    assert b <= w[i] && a <= v[j];
    var c, d := Max(v), Max(w);
    assert c in w && d in v;
    var k :| 0 <= k < |w| && w[k] == c;
    var l :| 0 <= l < |v| && v[l] == d;
    assert w[k] <= d && v[l] <= c;
  }

  /** The spread sees only which prices are valid and how many: reordering the records does not change it. */
  lemma SpreadOrderIndependent(v: seq<real>, w: seq<real>)
    requires forall i :: 0 <= i < |v| ==> v[i] > 0.0
    requires multiset(v) == multiset(w)
    ensures forall i :: 0 <= i < |w| ==> w[i] > 0.0
    ensures Spread(v) == Spread(w)
  {
    assert |v| == |multiset(v)| == |multiset(w)| == |w|;
    forall x ensures x in v <==> x in w {
      assert x in v <==> x in multiset(v);
      assert x in w <==> x in multiset(w);
    }
    forall i | 0 <= i < |w| ensures w[i] > 0.0 {
      assert w[i] in v;
    }
    if |v| >= 2 {
      MinMaxBySet(v, w);
    }
  }

  /** Records with the same contents in any order yield the same valid prices, up to order. */
  lemma {:induction false} ValidPricesPermutation(g: seq<PriceRecord>, h: seq<PriceRecord>)
    requires multiset(g) == multiset(h)
    ensures multiset(ValidPrices(g)) == multiset(ValidPrices(h))
    decreases |g|
  {
    if g == [] {
      assert |multiset(h)| == 0;
    } else {
      assert g[0] in multiset(h);
      var k :| 0 <= k < |h| && h[k] == g[0];
      RemoveOne(g, h, k);
      ValidPricesPermutation(g[1..], h[..k] + h[k + 1..]);
      ValidPricesExtract(h, k);
      ValidPricesExtract(g, 0);
      assert g[..0] + g[1..] == g[1..];
    }
  }

  /** Taking the first record of `g` out of `h` where it sits leaves the rest of `g`. */
  lemma RemoveOne(g: seq<PriceRecord>, h: seq<PriceRecord>, k: nat)
    requires multiset(g) == multiset(h) && g != [] && k < |h| && h[k] == g[0]
    ensures multiset(g[1..]) == multiset(h[..k] + h[k + 1..])
  {
    var x, a, b := g[0], h[..k], h[k + 1..];
    assert h == a + [x] + b;
    assert g == [x] + g[1..];
    calc {
      multiset(g[1..]);
      multiset(g) - multiset{x};
      multiset(h) - multiset{x};
      multiset(a) + multiset(b);
      multiset(a + b);
    }
  }

  /** The valid prices of `h` are, up to order, those of its `k`-th record and those of the rest. */
  lemma {:induction false} ValidPricesExtract(h: seq<PriceRecord>, k: nat)
    requires k < |h|
    ensures multiset(ValidPrices(h)) == multiset(ValidPrices([h[k]])) + multiset(ValidPrices(h[..k] + h[k + 1..]))
  {
    var a, x, b := h[..k], h[k], h[k + 1..];
    assert h == (a + [x]) + b;
    ValidPricesAppend(a + [x], b);
    ValidPricesAppend(a, [x]);
    ValidPricesAppend(a, b);
    var va, vx, vb := ValidPrices(a), ValidPrices([x]), ValidPrices(b);
    assert ValidPrices(h) == va + vx + vb;
    assert ValidPrices(a + b) == va + vb;
    assert multiset(va + vx + vb) == multiset(vx) + multiset(va + vb);
  }

  /** Reordering a token's records does not change its spread. */
  lemma TokenSpreadPermutation(g: seq<PriceRecord>, h: seq<PriceRecord>)
    requires multiset(g) == multiset(h)
    ensures TokenSpread(g) == TokenSpread(h)
  {
    ValidPricesPermutation(g, h);
    SpreadOrderIndependent(ValidPrices(g), ValidPrices(h));
  }

  /** The spread cell is shown green and bold when the formatted spread read back exceeds 1. */
  predicate SpreadHighlighted(group: seq<PriceRecord>) {
    RoundToCents(TokenSpread(group)) > 1.0
  }

  /** Because the spread is never negative, the test is the significance rule of the grid, and it
      holds exactly when the spread is at least 1.005 percent. */
  lemma SpreadHighlightRule(group: seq<PriceRecord>)
    ensures SpreadHighlighted(group) <==> IsSignificant(RoundToCents(TokenSpread(group)))
    ensures SpreadHighlighted(group) <==> TokenSpread(group) >= 1.005
  {
    SpreadNonNegative(ValidPrices(group));
    SignificantAfterRounding(TokenSpread(group));
  }

  /** The rows of one token: the label and the spread span them all, and every record has a row,
      whether its price is valid or not. */
  datatype SpreadBlock = SpreadBlock(symbol: string, name: string, spread: real, highlighted: bool, rows: seq<PriceRecord>)

  function MakeSpreadBlock(group: seq<PriceRecord>): (b: SpreadBlock)
    requires |group| > 0
    ensures b.rows == group
    ensures b.spread == TokenSpread(group) && b.highlighted == SpreadHighlighted(group)
    ensures b.symbol == PriceComparison.Symbol(group[0]) && b.name == PriceComparison.Name(group[0])
  {
    SpreadBlock(PriceComparison.Symbol(group[0]), PriceComparison.Name(group[0]),
      TokenSpread(group), SpreadHighlighted(group), group)
  }

  /** The blocks of the tokens in `order`, one per token id. */
  function SpreadBlocks(prices: seq<PriceRecord>, order: seq<int>): (blocks: seq<SpreadBlock>)
    requires forall i :: 0 <= i < |order| ==> order[i] in PriceComparison.TokenIdSet(prices)
    ensures |blocks| == |order|
    ensures forall i :: 0 <= i < |order| ==> blocks[i].rows == PriceComparison.Grouping(prices)[order[i]]
    ensures forall i :: 0 <= i < |order| ==>
      |PriceComparison.Grouping(prices)[order[i]]| > 0 &&
      blocks[i] == MakeSpreadBlock(PriceComparison.Grouping(prices)[order[i]])
  {
    if order == [] then []
    else
      var group := PriceComparison.Select(prices, order[0]);
      assert |group| > 0 by {
        assert order[0] in PriceComparison.TokenIdSet(prices);
        var i :| 0 <= i < |prices| && prices[i].tokenId == order[0];
        PriceComparison.SelectComplete(prices, i);
      }
      [MakeSpreadBlock(group)] + SpreadBlocks(prices, order[1..])
  }

  /** The table body: one block per token, in the order `Object.entries` yields the token ids. */
  function SpreadTable(prices: seq<PriceRecord>, order: seq<int>): (blocks: seq<SpreadBlock>)
    requires PriceComparison.EnumeratesKeys(order, prices)
    ensures |blocks| == |order|
    ensures forall i :: 0 <= i < |order| ==>
      var group := PriceComparison.Grouping(prices)[order[i]];
      |group| > 0 && blocks[i].spread == TokenSpread(group) && blocks[i].highlighted == SpreadHighlighted(group)
  {
    SpreadBlocks(prices, order)
  }

  function TotalRows(blocks: seq<SpreadBlock>): nat {
    if blocks == [] then 0 else |blocks[0].rows| + TotalRows(blocks[1..])
  }

  lemma {:induction false} SpreadBlocksRows(prices: seq<PriceRecord>, order: seq<int>)
    requires forall i :: 0 <= i < |order| ==> order[i] in PriceComparison.TokenIdSet(prices)
    ensures TotalRows(SpreadBlocks(prices, order)) == PriceComparison.SumSizes(prices, order)
  {
    if order != [] {
      SpreadBlocksRows(prices, order[1..]);
    }
  }

  /** Every record has a row, including those whose price is not valid. */
  lemma EveryRecordHasARow(prices: seq<PriceRecord>, order: seq<int>)
    requires PriceComparison.EnumeratesKeys(order, prices)
    ensures TotalRows(SpreadTable(prices, order)) == |prices|
  {
    SpreadBlocksRows(prices, order);
    PriceComparison.GroupSizesSum(prices, order);
  }
}
