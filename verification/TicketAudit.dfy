/**
 The tax-inclusive split that backend/v15_math_audit.py recomputes: each gross price gives a net
 price, and the tax is what is left of the gross total.
 */
module TicketAudit {
  import opened Cents

  function Sum(xs: seq<int>): int {
    if xs == [] then 0 else Sum(xs[..|xs| - 1]) + xs[|xs| - 1]
  }

  function Nets(prices: seq<int>): (r: seq<int>)
    ensures |r| == |prices| && forall k :: 0 <= k < |prices| ==> r[k] == Net(prices[k])
  {
    seq(|prices|, k requires 0 <= k < |prices| => Net(prices[k]))
  }

  /** What one line's own tax misses of the tax left over: the gross less net and net tax. */
  function Drift(gross: int): int { gross - Net(gross) - Tax(Net(gross)) }

  function Drifts(prices: seq<int>): int {
    if prices == [] then 0 else Drifts(prices[..|prices| - 1]) + Drift(prices[|prices| - 1])
  }

  /** The loop of `test_math` over any ticket, and the tax left over. */
  method TestMath(prices: seq<int>) returns (subtotal: int, residualTax: int, lineTaxSum: int)
    ensures subtotal == Sum(Nets(prices))
    ensures subtotal + residualTax == Sum(prices)
    ensures residualTax - lineTaxSum == Drifts(prices)
  {
    subtotal, lineTaxSum := 0, 0;
    for k := 0 to |prices|
      invariant subtotal == Sum(Nets(prices)[..k])
      invariant Sum(prices[..k]) - subtotal - lineTaxSum == Drifts(prices[..k])
    {
      var base := HalfUp(100 * prices[k], 116);
      var tax := HalfUp(16 * base, 100);
      assert prices[..k + 1][..k] == prices[..k] && Nets(prices)[..k + 1][..k] == Nets(prices)[..k];
      subtotal, lineTaxSum := subtotal + base, lineTaxSum + tax;
    }
    assert prices[..|prices|] == prices && Nets(prices)[..|prices|] == Nets(prices);
    residualTax := Sum(prices) - subtotal;
  }

  /** Net price and net tax repeat every 29 cents, so the drift depends on the price modulo 29 only. */
  lemma DriftRepeats(gross: int)
    ensures Drift(gross) == Drift(gross % 29)
  {
    var q, r := gross / 29, gross % 29;
    NetNeverTies(gross);
    NetNeverTies(r);
    assert 50 * gross + 29 == 58 * (25 * q) + (50 * r + 29);
    assert Net(gross) == 25 * q + Net(r);
    TaxNeverTies(Net(gross));
    TaxNeverTies(Net(r));
    assert 8 * Net(gross) + 25 == 50 * (4 * q) + (8 * Net(r) + 25);
    assert Tax(Net(gross)) == 4 * q + Tax(Net(r));
  }

  /** Exactly which prices drift, and by how much: never more than a cent. */
  lemma DriftTable(gross: int)
    ensures Drift(gross) == if gross % 29 == 4 || gross % 29 == 11 then 1
                            else if gross % 29 == 18 || gross % 29 == 25 then -1
                            else 0
  {
    DriftRepeats(gross);
    SmallDrifts(gross % 29);
  }

  lemma SmallDrifts(r: int)
    requires 0 <= r < 29
    ensures Drift(r) == if r == 4 || r == 11 then 1 else if r == 18 || r == 25 then -1 else 0
  {
    NetNeverTies(r);
    TaxNeverTies(Net(r));
    ClosedDrift(r, (50 * r + 29) / 58);
  }

  lemma ClosedDrift(r: int, net: int)
    requires 0 <= r < 29 && net == (50 * r + 29) / 58
    ensures r - net - (8 * net + 25) / 50
            == if r == 4 || r == 11 then 1 else if r == 18 || r == 25 then -1 else 0
  {
  }

  function CountIn(prices: seq<int>, residues: set<int>): nat {
    if prices == [] then 0
    else CountIn(prices[..|prices| - 1], residues) + if prices[|prices| - 1] % 29 in residues then 1 else 0
  }

  /** For a ticket of any length: the difference between residual tax and the sum of line taxes. */
  lemma {:induction false} ResidualAgainstLines(prices: seq<int>)
    ensures Drifts(prices) == CountIn(prices, {4, 11}) - CountIn(prices, {18, 25})
    ensures -|prices| <= Drifts(prices) <= |prices|
  {
    if prices == [] {
    } else {
      ResidualAgainstLines(prices[..|prices| - 1]);
      DriftTable(prices[|prices| - 1]);
    }
  }

  /** Both bounds are met by tickets of any length. */
  lemma {:induction false} DriftBoundIsTight(prices: seq<int>, price: int)
    requires price == 4 || price == 18
    requires forall k :: 0 <= k < |prices| ==> prices[k] == price
    ensures Drifts(prices) == if price == 4 then |prices| else -|prices|
  {
    if prices == [] {
    } else {
      DriftBoundIsTight(prices[..|prices| - 1], price);
      DriftTable(price);
    }
  }
}
