/**
 The amounts of a CFDI 4.0 document (SAT, Anexo 20, node Comprobante) as
 backend/modules/fiscal/cfdi_builder.py writes them, in cents.
 */
module CfdiTotals {
  import opened Text
  import opened Cents

  /** Concepto with its one Traslado. */
  datatype Concepto = Concepto(cantidad: int, valorUnitario: int, importe: int, base: int, iva: int)

  /** The document node Impuestos with its one Traslado; the total attribute only when positive. */
  datatype Impuestos = Impuestos(trasladados: Option<int>, base: int, importe: int)

  datatype Comprobante = Comprobante(subTotal: int, descuento: Option<int>, total: int,
                                     conceptos: seq<Concepto>, impuestos: Impuestos)

  function SumImporte(lines: seq<Line>): int {
    if lines == [] then 0 else SumImporte(lines[..|lines| - 1]) + Importe(lines[|lines| - 1])
  }

  function SumTax(lines: seq<Line>): int {
    if lines == [] then 0 else SumTax(lines[..|lines| - 1]) + Tax(Importe(lines[|lines| - 1]))
  }

  function SumAmount(lines: seq<Line>): int {
    if lines == [] then 0 else SumAmount(lines[..|lines| - 1]) + Amount(lines[|lines| - 1])
  }

  // ---------------------------------------------------------------- the builder's loops

  /** Document sums, read off the emitted conceptos only. */
  function ConceptoImportes(cs: seq<Concepto>): int {
    if cs == [] then 0 else ConceptoImportes(cs[..|cs| - 1]) + cs[|cs| - 1].importe
  }

  function ConceptoTaxes(cs: seq<Concepto>): int {
    if cs == [] then 0 else ConceptoTaxes(cs[..|cs| - 1]) + cs[|cs| - 1].iva
  }

  function ConceptoOf(l: Line): Concepto {
    Concepto(l.qty, l.price, Importe(l), Importe(l), Tax(Importe(l)))
  }

  /** `_build_comprobante`: SubTotal, the recomputed tax and Total. */
  method BuildComprobante(lines: seq<Line>, discount: int)
    returns (subtotal: int, totalIva: int, total: int, descuento: Option<int>)
    ensures subtotal == SumImporte(lines) && totalIva == SumTax(lines)
    ensures total == subtotal - discount + totalIva
    ensures descuento == if discount > 0 then Some(discount) else None
  {
    subtotal := 0;
    for k := 0 to |lines|
      invariant subtotal == SumImporte(lines[..k])
    {
      subtotal := subtotal + HalfUp(lines[k].qty * lines[k].price, MICRO);
      assert lines[..k + 1][..k] == lines[..k];
    }
    totalIva := 0;
    for k := 0 to |lines|
      invariant totalIva == SumTax(lines[..k])
    {
      var importe := HalfUp(lines[k].qty * lines[k].price, MICRO);
      totalIva := totalIva + HalfUp(16 * importe, 100);
      assert lines[..k + 1][..k] == lines[..k];
    }
    assert lines[..|lines|] == lines;
    total := subtotal - discount + totalIva;
    descuento := if discount > 0 then Some(discount) else None;
  }

  /** The position of the first line `_build_conceptos` rejects. */
  function FirstBadQuantity(lines: seq<Line>): (r: Option<nat>)
    ensures r.None? <==> forall k :: 0 <= k < |lines| ==> lines[k].qty > 0
    ensures r.Some? ==> r.value < |lines| && lines[r.value].qty <= 0
                        && forall j :: 0 <= j < r.value ==> lines[j].qty > 0
  {
    if lines == [] then None
    else if lines[0].qty <= 0 then Some(0)
    else
      var r := FirstBadQuantity(lines[1..]);
      assert forall j :: 1 <= j < |lines| ==> lines[j] == lines[1..][j - 1];
      match r
      case None => None
      case Some(k) => Some(k + 1)
  }

  /** One element a line, and the sums of what they show. */
  predicate Emitted(cs: seq<Concepto>, lines: seq<Line>) {
    && |cs| == |lines|
    && (forall k :: 0 <= k < |lines| ==> cs[k] == ConceptoOf(lines[k]))
    && ConceptoImportes(cs) == SumImporte(lines) && ConceptoTaxes(cs) == SumTax(lines)
  }

  lemma EmitNext(cs: seq<Concepto>, lines: seq<Line>, l: Line)
    requires Emitted(cs, lines)
    ensures Emitted(cs + [ConceptoOf(l)], lines + [l])
  {
    assert (cs + [ConceptoOf(l)])[..|cs|] == cs && (lines + [l])[..|lines|] == lines;
  }

  /** `_build_conceptos`: quantities are checked first, then one element is appended a line. */
  method BuildConceptos(lines: seq<Line>) returns (r: Result<seq<Concepto>, nat>)
    ensures FirstBadQuantity(lines).Some? ==> r == Failure(FirstBadQuantity(lines).value)
    ensures FirstBadQuantity(lines).None? ==> r.Success? && Emitted(r.value, lines)
  {
    for k := 0 to |lines|
      invariant forall j :: 0 <= j < k ==> lines[j].qty > 0
    {
      if lines[k].qty <= 0 {
        return Failure(k);
      }
    }
    var conceptos: seq<Concepto> := [];
    for k := 0 to |lines|
      invariant Emitted(conceptos, lines[..k])
    {
      var importe := HalfUp(lines[k].qty * lines[k].price, MICRO);
      var iva := BuildImpuestosConcepto(lines[k]);
      EmitNext(conceptos, lines[..k], lines[k]);
      assert lines[..k + 1] == lines[..k] + [lines[k]];
      conceptos := conceptos + [Concepto(lines[k].qty, lines[k].price, importe, iva.0, iva.1)];
    }
    assert lines[..|lines|] == lines;
    r := Success(conceptos);
  }

  /** `_build_impuestos_concepto`: base and tax of one line. */
  method BuildImpuestosConcepto(l: Line) returns (r: (int, int))
    ensures r == (Importe(l), Tax(Importe(l)))
    ensures -MICRO <= 2 * (Amount(l) - r.0 * MICRO) <= MICRO
    ensures -48 <= 16 * r.0 - 100 * r.1 <= 48
  {
    var base := HalfUp(l.qty * l.price, MICRO);
    r := (base, HalfUp(16 * base, 100));
    HalfUpNearest(Amount(l), MICRO);
    TaxError(base);
  }

  /** `_build_impuestos`: the document node, summed line by line. */
  method BuildImpuestos(lines: seq<Line>) returns (r: Impuestos)
    ensures r.base == SumImporte(lines) && r.importe == SumTax(lines)
    ensures r.trasladados == if SumTax(lines) > 0 then Some(SumTax(lines)) else None
  {
    var totalBase, totalImpuestos := 0, 0;
    for k := 0 to |lines|
      invariant totalBase == SumImporte(lines[..k]) && totalImpuestos == SumTax(lines[..k])
    {
      var importe := HalfUp(lines[k].qty * lines[k].price, MICRO);
      totalBase := totalBase + importe;
      totalImpuestos := totalImpuestos + HalfUp(16 * importe, 100);
      assert lines[..k + 1][..k] == lines[..k];
    }
    assert lines[..|lines|] == lines;
    r := Impuestos(if totalImpuestos > 0 then Some(totalImpuestos) else None, totalBase, totalImpuestos);
  }

  // ---------------------------------------------------------------- the document agrees with itself

  function Or0(x: Option<int>): int { if x.Some? then x.value else 0 }

  /** SubTotal and document tax are the sums of what the conceptos show. */
  predicate SumsAgree(doc: Comprobante) {
    && doc.subTotal == ConceptoImportes(doc.conceptos)
    && doc.impuestos.base == ConceptoImportes(doc.conceptos)
    && doc.impuestos.importe == ConceptoTaxes(doc.conceptos)
  }

  /** Total = SubTotal − Descuento + taxes, with the attributes as printed. */
  predicate TotalRule(doc: Comprobante) {
    doc.total == doc.subTotal - Or0(doc.descuento) + doc.impuestos.importe
  }

  /** The invoice of a list of lines and a discount. */
  function InvoiceOf(lines: seq<Line>, discount: int): Comprobante {
    Comprobante(SumImporte(lines), if discount > 0 then Some(discount) else None,
                SumImporte(lines) - discount + SumTax(lines),
                seq(|lines|, k requires 0 <= k < |lines| => ConceptoOf(lines[k])),
                Impuestos(if SumTax(lines) > 0 then Some(SumTax(lines)) else None, SumImporte(lines), SumTax(lines)))
  }

  /** An article at 100.00 with a discount of -5.00: Total grows to 121.00, and no Descuento says why. */
  lemma NegativeDiscountBreaksTotal()
    ensures var doc := InvoiceOf([Line(1000000, 10000)], -500);
            doc.total == 12100 && doc.subTotal == 10000 && doc.descuento == None && !TotalRule(doc)
  {
    var l := Line(1000000, 10000);
    assert [l][..0] == [];
    assert Amount(l) == 10000000000 && Importe(l) == 10000 && Tax(10000) == 1600;
    assert SumImporte([l]) == SumImporte([l][..0]) + Importe([l][0]);
    assert SumTax([l]) == SumTax([l][..0]) + Tax(Importe([l][0]));
  }

  /** `build`: an invoice from a sale's lines and discount, or the rejected line. */
  method Build(lines: seq<Line>, discount: int) returns (r: Result<Comprobante, nat>)
    ensures r.Failure? <==> exists k :: 0 <= k < |lines| && lines[k].qty <= 0
    ensures r.Success? ==> SumsAgree(r.value) && (TotalRule(r.value) <==> discount >= 0)
    ensures r.Success? ==> r.value == InvoiceOf(lines, discount)
  {
    var subtotal, iva, total, descuento := BuildComprobante(lines, discount);
    var conceptos := BuildConceptos(lines);
    if conceptos.Failure? {
      return Failure(conceptos.error);
    }
    var impuestos := BuildImpuestos(lines);
    r := Success(Comprobante(subtotal, descuento, total, conceptos.value, impuestos));
  }

  /** `build_credit_note`: the same sums without discount, from `_build_comprobante_egreso`. */
  method BuildCreditNote(lines: seq<Line>) returns (r: Result<Comprobante, nat>)
    ensures r.Failure? <==> exists k :: 0 <= k < |lines| && lines[k].qty <= 0
    ensures r.Success? ==> r.value == InvoiceOf(lines, 0) && SumsAgree(r.value) && TotalRule(r.value)
    ensures r.Success? ==> r.value.total == CreditNoteTotal(lines)
  {
    var subtotal, iva, total, descuento := BuildComprobante(lines, 0);
    var conceptos := BuildConceptos(lines);
    if conceptos.Failure? {
      return Failure(conceptos.error);
    }
    var impuestos := BuildImpuestos(lines);
    r := Success(Comprobante(subtotal, descuento, total, conceptos.value, impuestos));
  }

  function CreditNoteTotal(lines: seq<Line>): int { SumImporte(lines) + SumTax(lines) }

  // ---------------------------------------------------------------- distance from the exact tax

  /** One line: 10^8 times the tax against 16 times the exact amount in millionths of a cent. */
  lemma LineTaxError(l: Line)
    ensures -56000000 <= 100000000 * Tax(Importe(l)) - 16 * Amount(l) <= 56000000
  {
    HalfUpNearest(Amount(l), MICRO);
    TaxError(Importe(l));
  }

  /** For any number of lines the document tax is within 0.56 cents a line of 16% of Σ quantity × price. */
  lemma {:induction false} TaxDrift(lines: seq<Line>)
    ensures -56000000 * |lines| <= 100000000 * SumTax(lines) - 16 * SumAmount(lines) <= 56000000 * |lines|
  {
    if lines == [] {
    } else {
      TaxDrift(lines[..|lines| - 1]);
      LineTaxError(lines[|lines| - 1]);
    }
  }

  /** The subtotal is within half a cent a line of Σ quantity × price. */
  lemma {:induction false} SubtotalDrift(lines: seq<Line>)
    ensures -MICRO * |lines| <= 2 * (SumAmount(lines) - MICRO * SumImporte(lines)) <= MICRO * |lines|
  {
    if lines == [] {
    } else {
      SubtotalDrift(lines[..|lines| - 1]);
      HalfUpNearest(Amount(lines[|lines| - 1]), MICRO);
    }
  }

  /** A concepto shows its line, an amount within half a cent of it, and 16% of that within 0.48 cents. */
  predicate ShowsLine(c: Concepto, l: Line) {
    && c.cantidad == l.qty && c.valorUnitario == l.price
    && -MICRO <= 2 * (l.qty * l.price - MICRO * c.importe) <= MICRO
    && c.base == c.importe && -48 <= 16 * c.base - 100 * c.iva <= 48
  }

  lemma ConceptoShowsLine(l: Line)
    ensures ShowsLine(ConceptoOf(l), l)
  {
    HalfUpNearest(Amount(l), MICRO);
    TaxError(Importe(l));
  }

  /** What invoices and credit notes say, against the lines they are made from. */
  lemma DocumentSaysTheSale(lines: seq<Line>, discount: int)
    ensures var doc := InvoiceOf(lines, discount);
            && -MICRO * |lines| <= 2 * (SumAmount(lines) - MICRO * doc.subTotal) <= MICRO * |lines|
            && |doc.conceptos| == |lines|
            && (forall k :: 0 <= k < |lines| ==> ShowsLine(doc.conceptos[k], lines[k]))
            && doc.impuestos.base == doc.subTotal
            && -56000000 * |lines| <= 100000000 * doc.impuestos.importe - 16 * SumAmount(lines) <= 56000000 * |lines|
            && doc.impuestos.trasladados == (if doc.impuestos.importe > 0 then Some(doc.impuestos.importe) else None)
            && doc.descuento == (if discount > 0 then Some(discount) else None)
            && doc.total == doc.subTotal - discount + doc.impuestos.importe
  {
    SubtotalDrift(lines);
    TaxDrift(lines);
    forall k | 0 <= k < |lines| ensures ShowsLine(ConceptoOf(lines[k]), lines[k]) {
      ConceptoShowsLine(lines[k]);
    }
  }

  /** And the bound is met: half a unit at 43 cents, as often as one likes. */
  lemma {:induction false} TaxDriftIsTight(lines: seq<Line>)
    requires forall k :: 0 <= k < |lines| ==> lines[k] == Line(500000, 43)
    ensures 100000000 * SumTax(lines) - 16 * SumAmount(lines) == 56000000 * |lines|
  {
    if lines == [] {
    } else {
      var n := |lines| - 1;
      assert lines[n] == Line(500000, 43) && Amount(lines[n]) == 21500000;
      assert Importe(lines[n]) == 22 && Tax(22) == 4;
      TaxDriftIsTight(lines[..n]);
    }
  }
}
