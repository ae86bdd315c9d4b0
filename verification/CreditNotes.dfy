/**
 Credit-note totals as backend/modules/fiscal/cfdi_service.py stores them, against the document
 that CfdiTotals prints from the same items.
 */
module CreditNotes {
  import opened Text
  import opened Cents
  import opened CfdiTotals

  /** An item: its stored pre-tax subtotal if there is one, its total, and quantity and price. */
  datatype NoteItem = NoteItem(subtotal: Option<int>, total: int, line: Line)

  function PreTax(item: NoteItem): int {
    if item.subtotal.Some? then item.subtotal.value else Net(item.total)
  }

  function SumPreTax(items: seq<NoteItem>): int {
    if items == [] then 0 else SumPreTax(items[..|items| - 1]) + PreTax(items[|items| - 1])
  }

  function Lines(items: seq<NoteItem>): (r: seq<Line>)
    ensures |r| == |items| && forall k :: 0 <= k < |items| ==> r[k] == items[k].line
  {
    seq(|items|, k requires 0 <= k < |items| => items[k].line)
  }

  /** The totals of `generate_credit_note`; None when there are no products. */
  method GenerateCreditNoteTotals(items: seq<NoteItem>) returns (r: Option<(int, int, int)>)
    ensures items == [] ==> r == None
    ensures items != [] ==> r == Some((SumPreTax(items), Tax(SumPreTax(items)), SumPreTax(items) + Tax(SumPreTax(items))))
  {
    if items == [] {
      return None;
    }
    var rawSubtotal := 0;
    for k := 0 to |items|
      invariant rawSubtotal == SumPreTax(items[..k])
    {
      assert items[..k + 1][..k] == items[..k];
      if items[k].subtotal.Some? {
        rawSubtotal := rawSubtotal + items[k].subtotal.value;
      } else {
        rawSubtotal := rawSubtotal + HalfUp(100 * items[k].total, 116);
      }
    }
    assert items[..|items|] == items;
    var tax := HalfUp(16 * rawSubtotal, 100);
    r := Some((rawSubtotal, tax, rawSubtotal + tax));
  }

  /** Taking the tax off a total that was built by adding it gives the amount back, for every amount. */
  lemma NetUndoesTax(x: int)
    ensures Net(x + Tax(x)) == x
  {
    TaxError(x);
    NetNeverTies(x + Tax(x));
  }

  /** The item carries the same amount as its line: as a stored subtotal, or as a total with tax. */
  predicate Matches(item: NoteItem) {
    match item.subtotal
    case Some(s) => s == Importe(item.line)
    case None => item.total == Importe(item.line) + Tax(Importe(item.line))
  }

  lemma {:induction false} SubtotalsAgree(items: seq<NoteItem>)
    requires forall k :: 0 <= k < |items| ==> Matches(items[k])
    ensures SumPreTax(items) == SumImporte(Lines(items))
  {
    if items == [] {
    } else {
      var n := |items| - 1;
      SubtotalsAgree(items[..n]);
      assert Matches(items[n]);
      NetUndoesTax(Importe(items[n].line));
      assert Lines(items)[..n] == Lines(items[..n]);
    }
  }

  /** Taxing line by line against taxing the sum once, for any list. */
  lemma {:induction false} PerLineError(lines: seq<Line>)
    ensures -48 * |lines| <= 16 * SumImporte(lines) - 100 * SumTax(lines) <= 48 * |lines|
  {
    if lines == [] {
    } else {
      PerLineError(lines[..|lines| - 1]);
      TaxError(Importe(lines[|lines| - 1]));
    }
  }

  /** The stored subtotal is the printed one; the stored tax is within 0.48·(n + 1) cents of the printed tax. */
  lemma StoredAgainstPrinted(items: seq<NoteItem>)
    requires forall k :: 0 <= k < |items| ==> Matches(items[k])
    ensures SumPreTax(items) == SumImporte(Lines(items))
    ensures var gap := 100 * (Tax(SumPreTax(items)) - SumTax(Lines(items)));
            -48 * (|items| + 1) <= gap <= 48 * (|items| + 1)
  {
    SubtotalsAgree(items);
    PerLineError(Lines(items));
    TaxError(SumPreTax(items));
  }

  /** With one line the two taxes are the same. */
  lemma SingleItemAgrees(item: NoteItem)
    requires Matches(item)
    ensures Tax(SumPreTax([item])) == SumTax(Lines([item]))
  {
    SubtotalsAgree([item]);
    var lines := Lines([item]);
    assert lines == [item.line] && lines[..0] == [];
    assert [item][..0] == [];
  }

  /** The gap does grow with the note: n lines of three cents print no tax at all. */
  lemma {:induction false} ThreeCentLines(lines: seq<Line>)
    requires forall k :: 0 <= k < |lines| ==> lines[k] == Line(1000000, 3)
    ensures SumTax(lines) == 0 && SumImporte(lines) == 3 * |lines|
    ensures -50 <= 100 * Tax(SumImporte(lines)) - 48 * |lines| <= 50
  {
    if lines == [] {
    } else {
      var n := |lines| - 1;
      assert lines[n] == Line(1000000, 3) && Amount(lines[n]) == 3000000;
      assert Importe(lines[n]) == 3 && Tax(3) == 0;
      ThreeCentLines(lines[..n]);
    }
    TaxError(SumImporte(lines));
  }

  // ---------------------------------------------------------------- items of any kind

  function SumStored(items: seq<NoteItem>): int {
    if items == [] then 0
    else SumStored(items[..|items| - 1]) + if items[|items| - 1].subtotal.Some? then items[|items| - 1].subtotal.value else 0
  }

  function SumGross(items: seq<NoteItem>): int {
    if items == [] then 0
    else SumGross(items[..|items| - 1]) + if items[|items| - 1].subtotal.Some? then 0 else items[|items| - 1].total
  }

  function CountGross(items: seq<NoteItem>): nat {
    if items == [] then 0
    else CountGross(items[..|items| - 1]) + if items[|items| - 1].subtotal.Some? then 0 else 1
  }

  /** The stored subtotal: the subtotals there are, plus the other totals over 1.16 to within half a cent each. */
  lemma {:induction false} PreTaxDrift(items: seq<NoteItem>)
    ensures var gap := 116 * (SumPreTax(items) - SumStored(items)) - 100 * SumGross(items);
            -116 * CountGross(items) <= 2 * gap <= 116 * CountGross(items)
  {
    if items == [] {
    } else {
      var n := |items| - 1;
      PreTaxDrift(items[..n]);
      if items[n].subtotal.None? {
        HalfUpNearest(100 * items[n].total, 116);
      }
    }
  }
}
