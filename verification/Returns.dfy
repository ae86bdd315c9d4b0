/**
 `process_return` and its folios: backend/modules/fiscal/returns_engine.py.  Calls are serialised
 by the advisory lock; quantities are in millionths and prices in cents.
 */
module Returns {
  import opened Text
  import opened Cents
  import opened CfdiTotals

  type SaleId = nat
  type ProductId = nat

  /** One row of `sale_items` joined with its product. */
  datatype Sold = Sold(qty: int, price: int)

  datatype Sale = Sale(serie: string, items: map<ProductId, Sold>)

  datatype Request = Request(product: ProductId, qty: int)

  datatype Folio = Folio(year: nat, number: nat)

  /** A row of `returns`; `created` is the year of `created_at`, taken from the database's clock. */
  datatype Row = Row(sale: SaleId, folio: Folio, product: ProductId, qty: int, unitPrice: int,
                     subtotal: int, tax: int, total: int, created: nat)

  datatype ReturnError = SaleNotFound | QuantityExceedsSold(product: ProductId)

  datatype Refund = Refund(folio: Folio, itemsReturned: nat, total: int, needsCreditNote: bool)

  /** The two `quantize` calls without a mode, hence half to even. */
  function ReturnSubtotal(l: Line): int { HalfEven(Amount(l), MICRO) }

  function ReturnTax(l: Line): int { HalfEven(16 * ReturnSubtotal(l), 100) }

  function ReturnTotal(l: Line): int { ReturnSubtotal(l) + ReturnTax(l) }

  function MakeRow(sale: SaleId, folio: Folio, r: Request, sold: Sold, created: nat): Row {
    var l := Line(r.qty, sold.price);
    Row(sale, folio, r.product, r.qty, sold.price, ReturnSubtotal(l), ReturnTax(l), ReturnTotal(l), created)
  }

  predicate Excessive(sale: Sale, r: Request) { r.product in sale.items && r.qty > sale.items[r.product].qty }

  /** The rows a call inserts: unknown products are skipped, and the first excess ends it. */
  function RowsFor(id: SaleId, sale: Sale, folio: Folio, requests: seq<Request>, created: nat): seq<Row> {
    if requests == [] then []
    else
      var r := requests[0];
      if r.product !in sale.items then RowsFor(id, sale, folio, requests[1..], created)
      else if Excessive(sale, r) then []
      else [MakeRow(id, folio, r, sale.items[r.product], created)] + RowsFor(id, sale, folio, requests[1..], created)
  }

  function FirstExcess(sale: Sale, requests: seq<Request>): (e: Option<ProductId>)
    ensures e.Some? <==> exists k :: 0 <= k < |requests| && Excessive(sale, requests[k])
  {
    if requests == [] then None
    else if Excessive(sale, requests[0]) then Some(requests[0].product)
    else
      assert forall k :: 1 <= k < |requests| ==> requests[k] == requests[1..][k - 1];
      FirstExcess(sale, requests[1..])
  }

  /** The product named is that of the first excessive request. */
  lemma {:induction false} FirstExcessIsFirst(sale: Sale, requests: seq<Request>, k: nat)
    requires k < |requests| && Excessive(sale, requests[k]) && forall j :: 0 <= j < k ==> !Excessive(sale, requests[j])
    ensures FirstExcess(sale, requests) == Some(requests[k].product)
  {
    if k == 0 {
    } else {
      assert !Excessive(sale, requests[0]);
      FirstExcessIsFirst(sale, requests[1..], k - 1);
    }
  }

  function AddStock(stock: map<ProductId, int>, p: ProductId, qty: int): map<ProductId, int> {
    if p in stock then stock[p := stock[p] + qty] else stock
  }

  function Restock(stock: map<ProductId, int>, rows: seq<Row>): map<ProductId, int> {
    if rows == [] then stock else Restock(AddStock(stock, rows[0].product, rows[0].qty), rows[1..])
  }

  function CountYear(rows: seq<Row>, year: nat): nat {
    if rows == [] then 0 else CountYear(rows[..|rows| - 1], year) + if rows[|rows| - 1].created == year then 1 else 0
  }

  function SumTotals(rows: seq<Row>): int {
    if rows == [] then 0 else rows[0].total + SumTotals(rows[1..])
  }

  /** The engine, over the tables it touches. */
  class ReturnsEngine {
    var sales: map<SaleId, Sale>
    var returns_: seq<Row>
    var stock: map<ProductId, int>

    constructor (sales: map<SaleId, Sale>, rows: seq<Row>, stock: map<ProductId, int>)
      ensures this.sales == sales && returns_ == rows && this.stock == stock
    {
      this.sales, this.returns_, this.stock := sales, rows, stock;
    }

    /**
     `_generate_return_folio`, under the advisory lock.  The clock is read twice: for the year that is
     counted and, a query later, for the year that is printed.
     */
    method GenerateReturnFolio(countYear: nat, printYear: nat) returns (folio: Folio)
      ensures folio == FolioAt(returns_, countYear, printYear)
      ensures FoliosBounded(returns_) && countYear == printYear ==> IsNewFolio(returns_, folio)
    {
      folio := Folio(printYear, CountYear(returns_, countYear) + 1);
      if FoliosBounded(returns_) && countYear == printYear {
        NextFolioIsNew(returns_, countYear);
      }
    }

    /** The INSERT of one row and the UPDATE of its product's stock. */
    method RecordReturn(row: Row)
      modifies this`returns_, this`stock
      ensures returns_ == old(returns_) + [row] && stock == AddStock(old(stock), row.product, row.qty)
    {
      returns_ := returns_ + [row];
      if row.product in stock {
        stock := stock[row.product := stock[row.product] + row.qty];
      }
    }

    /**
     `process_return`.  An excess quantity is reported, but leaves the rows and the stock of the
     requests before it in place: the transaction block ends without an exception.
     */
    method ProcessReturn(id: SaleId, requests: seq<Request>, countYear: nat, printYear: nat, dbYear: nat)
      returns (r: Result<Refund, ReturnError>)
      modifies this`returns_, this`stock
      ensures id !in sales ==>
                r == Failure(SaleNotFound) && returns_ == old(returns_) && stock == old(stock)
      ensures id in sales ==>
                var folio := FolioAt(old(returns_), countYear, printYear);
                var rows := RowsFor(id, sales[id], folio, requests, dbYear);
                && returns_ == old(returns_) + rows
                && stock == Restock(old(stock), rows)
                && r == match FirstExcess(sales[id], requests)
                        case Some(p) => Failure(QuantityExceedsSold(p))
                        case None => Success(Refund(folio, |rows|, SumTotals(rows), sales[id].serie == "A"))
    {
      if id !in sales {
        return Failure(SaleNotFound);
      }
      var sale := sales[id];
      var folio := GenerateReturnFolio(countYear, printYear);
      ghost var all, before, shelf := RowsFor(id, sale, folio, requests, dbYear), returns_, stock;
      ghost var done: seq<Row> := [];
      var total, count := 0, 0;
      for k := 0 to |requests|
        invariant done + RowsFor(id, sale, folio, requests[k..], dbYear) == all
        invariant FirstExcess(sale, requests) == FirstExcess(sale, requests[k..])
        invariant returns_ == before + done && stock == Restock(shelf, done)
        invariant total == SumTotals(done) && count == |done|
      {
        var req := requests[k];
        assert requests[k..][1..] == requests[k + 1..];
        if req.product !in sale.items {
          continue;
        }
        var sold := sale.items[req.product];
        if req.qty > sold.qty {
          assert done == all;
          return Failure(QuantityExceedsSold(req.product));
        }
        var subtotal := HalfEven(req.qty * sold.price, MICRO);
        var tax := HalfEven(16 * subtotal, 100);
        var row := Row(id, folio, req.product, req.qty, sold.price, subtotal, tax, subtotal + tax, dbYear);
        RestockNext(shelf, done, row);
        RowsForNext(done, id, sale, folio, requests[k..], dbYear);
        done := done + [row];
        total := total + (subtotal + tax);
        RecordReturn(row);
        count := count + 1;
      }
      assert done == all;
      r := Success(Refund(folio, count, total, sale.serie == "A"));
    }
  }

  lemma RowsForNext(done: seq<Row>, id: SaleId, sale: Sale, folio: Folio, requests: seq<Request>, created: nat)
    requires requests != [] && requests[0].product in sale.items && !Excessive(sale, requests[0])
    ensures var row := MakeRow(id, folio, requests[0], sale.items[requests[0].product], created);
            done + RowsFor(id, sale, folio, requests, created) ==
            (done + [row]) + RowsFor(id, sale, folio, requests[1..], created)
  {
  }

  lemma {:induction false} RestockNext(stock: map<ProductId, int>, rows: seq<Row>, row: Row)
    ensures Restock(stock, rows + [row]) == AddStock(Restock(stock, rows), row.product, row.qty)
    ensures SumTotals(rows + [row]) == SumTotals(rows) + row.total
  {
    if rows == [] {
      assert rows + [row] == [row] && [row][1..] == [];
    } else {
      assert (rows + [row])[1..] == rows[1..] + [row];
      RestockNext(AddStock(stock, rows[0].product, rows[0].qty), rows[1..], row);
    }
  }

  // ---------------------------------------------------------------- stock

  function ReturnedQty(rows: seq<Row>, p: ProductId): int {
    if rows == [] then 0 else (if rows[0].product == p then rows[0].qty else 0) + ReturnedQty(rows[1..], p)
  }

  /** Every product gains exactly what the inserted rows return, on the error path too. */
  lemma {:induction false} StockIsConserved(stock: map<ProductId, int>, rows: seq<Row>, p: ProductId)
    ensures Restock(stock, rows).Keys == stock.Keys
    ensures p in stock ==> Restock(stock, rows)[p] == stock[p] + ReturnedQty(rows, p)
  {
    if rows == [] {
    } else {
      StockIsConserved(AddStock(stock, rows[0].product, rows[0].qty), rows[1..], p);
    }
  }

  /** Each row stays within the quantity sold, but the check does not look at earlier returns. */
  lemma {:induction false} RowsWithinSold(id: SaleId, sale: Sale, folio: Folio, requests: seq<Request>, created: nat)
    ensures forall row :: row in RowsFor(id, sale, folio, requests, created) ==>
              row.product in sale.items && row.qty <= sale.items[row.product].qty
              && row.folio == folio && row.created == created && row.sale == id
  {
    if requests == [] {
    } else {
      RowsWithinSold(id, sale, folio, requests[1..], created);
    }
  }

  // ---------------------------------------------------------------- rows against the requests

  /** The requests a call accepts: of known products, up to the first that asks for more than was sold. */
  function Accepted(sale: Sale, requests: seq<Request>): seq<Request> {
    if requests == [] then []
    else
      var r := requests[0];
      if r.product !in sale.items then Accepted(sale, requests[1..])
      else if r.qty > sale.items[r.product].qty then []
      else [r] + Accepted(sale, requests[1..])
  }

  /** The row records the request, at the sold price, and nothing else of the call. */
  predicate RecordsRequest(row: Row, id: SaleId, sale: Sale, folio: Folio, r: Request, created: nat) {
    && row.sale == id && row.folio == folio && row.created == created
    && row.product == r.product && row.qty == r.qty
    && r.product in sale.items && row.unitPrice == sale.items[r.product].price
  }

  /** Subtotal and tax are rounded half to even: of quantity × price, and of 16% of the subtotal. */
  predicate RowAddsUp(row: Row) {
    && IsHalfEven(row.subtotal, row.qty * row.unitPrice, MICRO)
    && IsHalfEven(row.tax, 16 * row.subtotal, 100)
    && row.total == row.subtotal + row.tax
  }

  lemma MadeRowAddsUp(id: SaleId, folio: Folio, r: Request, sold: Sold, created: nat)
    ensures RowAddsUp(MakeRow(id, folio, r, sold, created))
  {
    HalfEvenIs(r.qty * sold.price, MICRO);
    HalfEvenIs(16 * ReturnSubtotal(Line(r.qty, sold.price)), 100);
  }

  /** One row for each accepted request, in order, at its product's sold price, and adding up. */
  lemma {:induction false} RowsAreRequests(id: SaleId, sale: Sale, folio: Folio, requests: seq<Request>, created: nat)
    ensures var rows := RowsFor(id, sale, folio, requests, created);
            var ok := Accepted(sale, requests);
            && |rows| == |ok|
            && forall k :: 0 <= k < |ok| ==> RecordsRequest(rows[k], id, sale, folio, ok[k], created) && RowAddsUp(rows[k])
  {
    if requests == [] {
    } else {
      var r := requests[0];
      if r.product in sale.items {
        MadeRowAddsUp(id, folio, r, sale.items[r.product], created);
      }
      RowsAreRequests(id, sale, folio, requests[1..], created);
    }
  }

  function Repeat(r: Request, n: nat): seq<Request> {
    if n == 0 then [] else [r] + Repeat(r, n - 1)
  }

  /** Asking n times for everything that was sold returns it n times. */
  lemma {:induction false} ReturnsExceedSale(id: SaleId, sale: Sale, folio: Folio, p: ProductId, created: nat, n: nat)
    requires p in sale.items
    ensures var rows := RowsFor(id, sale, folio, Repeat(Request(p, sale.items[p].qty), n), created);
            |rows| == n && ReturnedQty(rows, p) == n * sale.items[p].qty
  {
    if n == 0 {
    } else {
      var r := Request(p, sale.items[p].qty);
      ReturnsExceedSale(id, sale, folio, p, created, n - 1);
      assert Repeat(r, n)[1..] == Repeat(r, n - 1);
      var rest := RowsFor(id, sale, folio, Repeat(r, n - 1), created);
      var row := MakeRow(id, folio, r, sale.items[p], created);
      assert RowsFor(id, sale, folio, Repeat(r, n), created) == [row] + rest;
      assert ([row] + rest)[1..] == rest;
    }
  }

  /** What one call asks of a product before its first excessive request. */
  function Asked(sale: Sale, requests: seq<Request>, p: ProductId): int {
    if requests == [] || Excessive(sale, requests[0]) then 0
    else (if requests[0].product == p && p in sale.items then requests[0].qty else 0) + Asked(sale, requests[1..], p)
  }

  /** What the rows of one sale return of a product. */
  function ReturnedOf(rows: seq<Row>, id: SaleId, p: ProductId): int {
    if rows == [] then 0
    else (if rows[0].sale == id && rows[0].product == p then rows[0].qty else 0) + ReturnedOf(rows[1..], id, p)
  }

  lemma {:induction false} ReturnedOfAppend(a: seq<Row>, b: seq<Row>, id: SaleId, p: ProductId)
    ensures ReturnedOf(a + b, id, p) == ReturnedOf(a, id, p) + ReturnedOf(b, id, p)
  {
    if a == [] {
      assert a + b == b;
    } else {
      assert (a + b)[1..] == a[1..] + b;
      ReturnedOfAppend(a[1..], b, id, p);
    }
  }

  lemma {:induction false} RowsReturnAsked(id: SaleId, sale: Sale, folio: Folio, requests: seq<Request>, created: nat,
                                          other: SaleId, p: ProductId)
    ensures ReturnedOf(RowsFor(id, sale, folio, requests, created), other, p)
         == if other == id then Asked(sale, requests, p) else 0
  {
    if requests == [] || Excessive(sale, requests[0]) {
    } else {
      RowsReturnAsked(id, sale, folio, requests[1..], created, other, p);
      if requests[0].product in sale.items {
        var row := MakeRow(id, folio, requests[0], sale.items[requests[0].product], created);
        var rest := RowsFor(id, sale, folio, requests[1..], created);
        assert ([row] + rest)[1..] == rest;
      }
    }
  }

  /** A call leaves a product's returns within its sale exactly when what it asks fits in the room that is left. */
  lemma StaysWithinExactly(table: seq<Row>, id: SaleId, sale: Sale, folio: Folio, requests: seq<Request>, created: nat,
                           p: ProductId)
    requires p in sale.items
    ensures ReturnedOf(table + RowsFor(id, sale, folio, requests, created), id, p) <= sale.items[p].qty <==>
            Asked(sale, requests, p) <= sale.items[p].qty - ReturnedOf(table, id, p)
  {
    ReturnedOfAppend(table, RowsFor(id, sale, folio, requests, created), id, p);
    RowsReturnAsked(id, sale, folio, requests, created, id, p);
  }

  /** A call records nothing exactly when no known product is requested before the first excess. */
  lemma {:induction false} RecordsNothingExactly(id: SaleId, sale: Sale, folio: Folio, requests: seq<Request>, created: nat)
    ensures RowsFor(id, sale, folio, requests, created) == [] <==>
            !exists k :: 0 <= k < |requests| && requests[k].product in sale.items
                         && forall j :: 0 <= j <= k ==> !Excessive(sale, requests[j])
  {
    if requests == [] {
    } else if requests[0].product in sale.items {
      if !Excessive(sale, requests[0]) {
        assert requests[0].product in sale.items && forall j :: 0 <= j <= 0 ==> !Excessive(sale, requests[j]);
      }
    } else {
      var rest := requests[1..];
      RecordsNothingExactly(id, sale, folio, rest, created);
      if k :| 0 <= k < |rest| && rest[k].product in sale.items && forall j :: 0 <= j <= k ==> !Excessive(sale, rest[j]) {
        assert requests[k + 1] == rest[k];
        forall j | 0 <= j <= k + 1 ensures !Excessive(sale, requests[j]) {
          assert j > 0 ==> requests[j] == rest[j - 1];
        }
      }
      if k :| 0 <= k < |requests| && requests[k].product in sale.items
              && forall j :: 0 <= j <= k ==> !Excessive(sale, requests[j]) {
        assert rest[k - 1] == requests[k];
        assert forall j :: 0 <= j <= k - 1 ==> rest[j] == requests[j + 1];
      }
    }
  }

  /** One unit of each of two products sold: asking for one and then two is refused, and the one is returned. */
  lemma RefusalKeepsARow(folio: Folio, created: nat)
    ensures var sale := Sale("B", map[1 := Sold(1000000, 100), 2 := Sold(1000000, 100)]);
            var requests := [Request(1, 1000000), Request(2, 2000000)];
            && FirstExcess(sale, requests) == Some(2)
            && |RowsFor(0, sale, folio, requests, created)| == 1
  {
    var sale := Sale("B", map[1 := Sold(1000000, 100), 2 := Sold(1000000, 100)]);
    var requests := [Request(1, 1000000), Request(2, 2000000)];
    assert requests[1..] == [Request(2, 2000000)];
    assert RowsFor(0, sale, folio, requests[1..], created) == [];
  }

  // ---------------------------------------------------------------- refund and credit note

  function RefundTotal(lines: seq<Line>): int {
    if lines == [] then 0 else RefundTotal(lines[..|lines| - 1]) + ReturnTotal(lines[|lines| - 1])
  }

  /** quantity × price ends in half a cent above an even number of cents */
  predicate OnEvenHalfCent(l: Line) { Amount(l) % MICRO == 500000 && (Amount(l) / MICRO) % 2 == 0 }

  /** One line: the printed document is never below the refund, and equal unless the modes differ. */
  lemma LineDifference(l: Line)
    requires Amount(l) >= 0
    ensures ReturnTotal(l) <= Importe(l) + Tax(Importe(l))
    ensures ReturnTotal(l) == Importe(l) + Tax(Importe(l)) <==> !OnEvenHalfCent(l)
  {
    ModesDifferExactly(Amount(l), MICRO);
    TaxNeverTies(ReturnSubtotal(l));
    TaxMonotone(ReturnSubtotal(l), Importe(l));
  }

  /** The refund equals the Total of the credit note for the same lines exactly when no line is on an even half cent. */
  lemma {:induction false} RefundEqualsCreditNote(lines: seq<Line>)
    requires forall k :: 0 <= k < |lines| ==> Amount(lines[k]) >= 0
    ensures RefundTotal(lines) <= CreditNoteTotal(lines)
    ensures RefundTotal(lines) == CreditNoteTotal(lines) <==> forall k :: 0 <= k < |lines| ==> !OnEvenHalfCent(lines[k])
  {
    if lines == [] {
    } else {
      var n := |lines| - 1;
      RefundEqualsCreditNote(lines[..n]);
      LineDifference(lines[n]);
      assert forall k :: 0 <= k < n ==> lines[..n][k] == lines[k];
    }
  }

  function LinesOf(rows: seq<Row>): (r: seq<Line>)
    ensures |r| == |rows| && forall k :: 0 <= k < |rows| ==> r[k] == Line(rows[k].qty, rows[k].unitPrice)
  {
    seq(|rows|, k requires 0 <= k < |rows| => Line(rows[k].qty, rows[k].unitPrice))
  }

  lemma {:induction false} RefundHead(l: Line, rest: seq<Line>)
    ensures RefundTotal([l] + rest) == ReturnTotal(l) + RefundTotal(rest)
  {
    var all := [l] + rest;
    if rest == [] {
      assert all[..0] == [];
    } else {
      var n := |rest| - 1;
      assert all[..n + 1] == [l] + rest[..n];
      RefundHead(l, rest[..n]);
    }
  }

  lemma {:induction false} RowTotals(id: SaleId, sale: Sale, folio: Folio, requests: seq<Request>, created: nat)
    ensures var rows := RowsFor(id, sale, folio, requests, created); SumTotals(rows) == RefundTotal(LinesOf(rows))
  {
    if requests == [] {
    } else {
      var rows := RowsFor(id, sale, folio, requests, created);
      RowTotals(id, sale, folio, requests[1..], created);
      if rows != [] && requests[0].product in sale.items {
        assert LinesOf(rows) == [LinesOf(rows)[0]] + LinesOf(rows[1..]);
        RefundHead(LinesOf(rows)[0], LinesOf(rows[1..]));
      }
    }
  }

  /** The refund a call reports against the credit note printed from the rows it recorded. */
  lemma ReportedRefundMeetsCreditNote(id: SaleId, sale: Sale, folio: Folio, requests: seq<Request>, created: nat)
    requires forall k :: 0 <= k < |requests| ==> requests[k].qty >= 0
    requires forall p :: p in sale.items ==> sale.items[p].price >= 0
    ensures var rows := RowsFor(id, sale, folio, requests, created);
            && SumTotals(rows) <= CreditNoteTotal(LinesOf(rows))
            && (SumTotals(rows) == CreditNoteTotal(LinesOf(rows)) <==>
                  forall k :: 0 <= k < |rows| ==> !OnEvenHalfCent(Line(rows[k].qty, rows[k].unitPrice)))
  {
    var rows := RowsFor(id, sale, folio, requests, created);
    RowTotals(id, sale, folio, requests, created);
    RowAmounts(id, sale, folio, requests, created);
    assert forall k :: 0 <= k < |rows| ==> rows[k] in rows;
    RefundEqualsCreditNote(LinesOf(rows));
    assert forall k :: 0 <= k < |rows| ==> LinesOf(rows)[k] == Line(rows[k].qty, rows[k].unitPrice);
  }

  lemma {:induction false} RowAmounts(id: SaleId, sale: Sale, folio: Folio, requests: seq<Request>, created: nat)
    requires forall k :: 0 <= k < |requests| ==> requests[k].qty >= 0
    requires forall p :: p in sale.items ==> sale.items[p].price >= 0
    ensures forall row :: row in RowsFor(id, sale, folio, requests, created) ==>
              Amount(Line(row.qty, row.unitPrice)) >= 0
  {
    if requests == [] {
    } else {
      RowAmounts(id, sale, folio, requests[1..], created);
      if requests[0].product in sale.items {
        ProductNonNegative(requests[0].qty, sale.items[requests[0].product].price);
      }
    }
  }

  lemma ProductNonNegative(a: int, b: int)
    requires a >= 0 && b >= 0
    ensures a * b >= 0
  {
  }

  /** What a call returns of the sale: the accepted quantities at the sold prices. */
  function ReturnedLines(sale: Sale, requests: seq<Request>): (r: seq<Line>)
    ensures |r| == |Accepted(sale, requests)|
  {
    var ok := Accepted(sale, requests);
    seq(|ok|, k requires 0 <= k < |ok| =>
      Line(ok[k].qty, if ok[k].product in sale.items then sale.items[ok[k].product].price else 0))
  }

  /** The refund a call reports is that of these lines, and never above their credit note. */
  lemma RefundIsOfTheSale(id: SaleId, sale: Sale, folio: Folio, requests: seq<Request>, created: nat)
    ensures var rows := RowsFor(id, sale, folio, requests, created);
            LinesOf(rows) == ReturnedLines(sale, requests) && SumTotals(rows) == RefundTotal(ReturnedLines(sale, requests))
  {
    RowsAreRequests(id, sale, folio, requests, created);
    RowTotals(id, sale, folio, requests, created);
    var rows, ok := RowsFor(id, sale, folio, requests, created), Accepted(sale, requests);
    forall k | 0 <= k < |ok| ensures LinesOf(rows)[k] == ReturnedLines(sale, requests)[k] {
      assert RecordsRequest(rows[k], id, sale, folio, ok[k], created);
    }
  }

  lemma RefundMeetsCreditNoteOfSale(id: SaleId, sale: Sale, folio: Folio, requests: seq<Request>, created: nat)
    requires forall k :: 0 <= k < |requests| ==> requests[k].qty >= 0
    requires forall p :: p in sale.items ==> sale.items[p].price >= 0
    ensures var lines := ReturnedLines(sale, requests);
            var refund := SumTotals(RowsFor(id, sale, folio, requests, created));
            && refund <= CreditNoteTotal(lines)
            && (refund == CreditNoteTotal(lines) <==> forall k :: 0 <= k < |lines| ==> !OnEvenHalfCent(lines[k]))
  {
    var rows := RowsFor(id, sale, folio, requests, created);
    RefundIsOfTheSale(id, sale, folio, requests, created);
    ReportedRefundMeetsCreditNote(id, sale, folio, requests, created);
    assert forall k :: 0 <= k < |rows| ==> LinesOf(rows)[k] == Line(rows[k].qty, rows[k].unitPrice);
  }

  /** One of two units sold at 100.00: the refund is 116.00. */
  lemma OneUnitRefund(folio: Folio, created: nat)
    ensures var sale := Sale("A", map[1 := Sold(2000000, 10000)]);
            SumTotals(RowsFor(0, sale, folio, [Request(1, 1000000)], created)) == 11600
  {
    var sale := Sale("A", map[1 := Sold(2000000, 10000)]);
    var requests := [Request(1, 1000000)];
    assert requests[1..] == [];
    var row := MakeRow(0, folio, requests[0], sale.items[1], created);
    assert RowsFor(0, sale, folio, requests, created) == [row] + [];
    assert ([row] + [])[1..] == [] && row.total == 11600;
  }

  /** In particular for whole quantities and whole-cent prices. */
  lemma WholeQuantitiesAgree(lines: seq<Line>)
    requires forall k :: 0 <= k < |lines| ==> lines[k].qty % MICRO == 0 && lines[k].qty >= 0 && lines[k].price >= 0
    ensures RefundTotal(lines) == CreditNoteTotal(lines)
  {
    forall k | 0 <= k < |lines| ensures Amount(lines[k]) >= 0 && !OnEvenHalfCent(lines[k]) {
      var n := lines[k].qty / MICRO;
      WholeAmount(lines[k], n);
    }
    RefundEqualsCreditNote(lines);
  }

  lemma WholeAmount(l: Line, n: int)
    requires l.qty == n * MICRO && n >= 0 && l.price >= 0
    ensures Amount(l) >= 0 && Amount(l) % MICRO == 0
  {
    var m := n * l.price;
    assert Amount(l) == m * MICRO;
    assert m >= 0;
  }

  /** Half a unit at one cent: the refund is nothing, the credit note a cent. */
  lemma HalfCentDisagrees()
    ensures var lines := [Line(500000, 1)]; RefundTotal(lines) == 0 && CreditNoteTotal(lines) == 1
  {
  }

  // ---------------------------------------------------------------- folios

  /** `f"{n:05d}"` */
  function Pad5(n: nat): string { Zeros(if |Dec(n)| < 5 then 5 - |Dec(n)| else 0) + Dec(n) }

  function Zeros(k: nat): (z: string)
    ensures |z| == k && forall c :: c in z ==> c == '0'
  {
    if k == 0 then "" else Zeros(k - 1) + ['0']
  }

  function FolioText(f: Folio): string { "DEV-" + Dec(f.year) + "-" + Pad5(f.number) }

  lemma {:induction false} LeadingZeros(k: nat, s: string)
    requires forall c :: c in s ==> IsDigit(c)
    ensures forall c :: c in Zeros(k) + s ==> IsDigit(c)
    ensures Value(Zeros(k) + s) == Value(s)
    decreases |s|, k
  {
    if s == "" {
      assert Zeros(k) + s == Zeros(k);
      if k > 0 {
        LeadingZeros(k - 1, s);
        assert Zeros(k - 1) + "" == Zeros(k - 1);
        assert Zeros(k)[..k - 1] == Zeros(k - 1);
      }
    } else {
      var t := s[..|s| - 1];
      LeadingZeros(k, t);
      assert (Zeros(k) + s)[..|Zeros(k) + s| - 1] == Zeros(k) + t;
    }
  }

  lemma PadValue(n: nat)
    ensures forall c :: c in Pad5(n) ==> IsDigit(c)
    ensures Value(Pad5(n)) == n
  {
    LeadingZeros(if |Dec(n)| < 5 then 5 - |Dec(n)| else 0, Dec(n));
    ValueOfDec(n);
  }

  /** DEV, the year and the number, which takes five digits as long as it fits. */
  lemma FolioLooks(f: Folio)
    ensures exists p: string :: FolioText(f) == "DEV-" + Dec(f.year) + "-" + p && IsFolioNumber(p, f.number)
  {
    PadValue(f.number);
    DecIsShort(f.number);
    assert FolioText(f) == "DEV-" + Dec(f.year) + "-" + Pad5(f.number);
  }

  predicate IsFolioNumber(p: string, n: nat) {
    (forall c :: c in p ==> IsDigit(c)) && Value(p) == n && |p| >= 5 && (n < 100000 ==> |p| == 5)
  }

  lemma DecIsShort(n: nat)
    ensures n < 100000 ==> |Dec(n)| <= 5
  {
    if n < 100000 {
      assert n / 10 < 10000 && n / 10 / 10 < 1000 && n / 10 / 10 / 10 < 100 && n / 10 / 10 / 10 / 10 < 10;
      assert |Dec(n / 10 / 10 / 10 / 10)| <= 1;
      assert |Dec(n / 10 / 10 / 10)| <= 2;
      assert |Dec(n / 10 / 10)| <= 3;
      assert |Dec(n / 10)| <= 4;
    }
  }

  lemma DigitsUpToDash(a: string, x: string, b: string, y: string)
    requires forall c :: c in a ==> IsDigit(c)
    requires forall c :: c in b ==> IsDigit(c)
    requires a + "-" + x == b + "-" + y
    ensures a == b && x == y
  {
    var s, t := a + "-" + x, b + "-" + y;
    assert forall k :: 0 <= k < |a| ==> s[k] == a[k] && a[k] in a;
    assert forall k :: 0 <= k < |b| ==> t[k] == b[k] && b[k] in b;
    assert s[|a|] == '-' && t[|b|] == '-' && s == t;
    assert |a| == |b|;
    assert s[..|a|] == a && t[..|b|] == b;
    assert s[|a| + 1..] == x && t[|b| + 1..] == y;
  }

  /** Different folios print differently, past 99999 too. */
  lemma FolioTextInjective(f: Folio, g: Folio)
    requires FolioText(f) == FolioText(g)
    ensures f == g
  {
    var a, b := Dec(f.year) + "-" + Pad5(f.number), Dec(g.year) + "-" + Pad5(g.number);
    assert FolioText(f) == "DEV-" + a && FolioText(g) == "DEV-" + b;
    assert FolioText(f)[4..] == a && FolioText(g)[4..] == b;
    DigitsUpToDash(Dec(f.year), Pad5(f.number), Dec(g.year), Pad5(g.number));
    DecInjective(f.year, g.year);
    PadValue(f.number);
    PadValue(g.number);
  }

  /** No folio of a year is above the number of rows of that year. */
  ghost predicate FoliosBounded(rows: seq<Row>) {
    forall k :: 0 <= k < |rows| ==> rows[k].folio.number <= CountYear(rows, rows[k].folio.year)
  }

  lemma {:induction false} CountAppend(a: seq<Row>, b: seq<Row>, year: nat)
    ensures CountYear(a + b, year) == CountYear(a, year) + CountYear(b, year)
  {
    if b == [] {
      assert a + b == a;
    } else {
      var n := |b| - 1;
      assert (a + b)[..|a + b| - 1] == a + b[..n];
      CountAppend(a, b[..n], year);
    }
  }

  lemma {:induction false} CountUniform(rows: seq<Row>, created: nat, year: nat)
    requires forall row :: row in rows ==> row.created == created
    ensures CountYear(rows, year) == if created == year then |rows| else 0
  {
    if rows == [] {
    } else {
      CountUniform(rows[..|rows| - 1], created, year);
    }
  }

  function FolioAt(rows: seq<Row>, countYear: nat, printYear: nat): Folio {
    Folio(printYear, CountYear(rows, countYear) + 1)
  }

  /** What one call adds to the table. */
  predicate Records(rows: seq<Row>, added: seq<Row>, folio: Folio, dbYear: nat) {
    forall row :: row in added ==> row.folio == folio && row.created == dbYear
  }

  lemma CountsAfter(rows: seq<Row>, added: seq<Row>, folio: Folio, dbYear: nat, year: nat)
    requires Records(rows, added, folio, dbYear)
    ensures CountYear(rows + added, year) == CountYear(rows, year) + if dbYear == year then |added| else 0
  {
    CountAppend(rows, added, year);
    CountUniform(added, dbYear, year);
  }

  /**
   A call that records rows keeps the bound exactly when the printed year has rows enough afterwards;
   with one reading of the clock, exactly when the database shows the same year.
   */
  lemma BoundKeptExactly(rows: seq<Row>, added: seq<Row>, countYear: nat, printYear: nat, dbYear: nat)
    requires FoliosBounded(rows) && added != []
    requires Records(rows, added, FolioAt(rows, countYear, printYear), dbYear)
    ensures FoliosBounded(rows + added) <==>
            CountYear(rows, countYear) < CountYear(rows, printYear) + if dbYear == printYear then |added| else 0
    ensures countYear == printYear ==> (FoliosBounded(rows + added) <==> printYear == dbYear)
  {
    var after, folio := rows + added, FolioAt(rows, countYear, printYear);
    forall year: nat
      ensures CountYear(after, year) == CountYear(rows, year) + if dbYear == year then |added| else 0
    {
      CountsAfter(rows, added, folio, dbYear, year);
    }
    assert after[|rows|] == added[0] && added[0] in added;
    if folio.number <= CountYear(after, printYear) {
      forall k | 0 <= k < |after| ensures after[k].folio.number <= CountYear(after, after[k].folio.year) {
        if k < |rows| {
          assert after[k] == rows[k];
        } else {
          assert after[k] == added[k - |rows|] && after[k] in added;
        }
      }
    }
  }

  /** No row shows this folio's text. */
  predicate IsNewFolio(rows: seq<Row>, folio: Folio) {
    forall k :: 0 <= k < |rows| ==> FolioText(rows[k].folio) != FolioText(folio)
  }

  /** With the bound in place the next folio of any year is new. */
  lemma NextFolioIsNew(rows: seq<Row>, year: nat)
    requires FoliosBounded(rows)
    ensures IsNewFolio(rows, FolioAt(rows, year, year))
  {
    forall k | 0 <= k < |rows| ensures FolioText(rows[k].folio) != FolioText(FolioAt(rows, year, year)) {
      if FolioText(rows[k].folio) == FolioText(FolioAt(rows, year, year)) {
        FolioTextInjective(rows[k].folio, FolioAt(rows, year, year));
      }
    }
  }

  /** A call of the engine, as seen by the table: with the years it counts, prints and is dated in. */
  datatype Call = Call(id: SaleId, sale: Sale, requests: seq<Request>, countYear: nat, printYear: nat, dbYear: nat)

  function FolioFor(table: seq<Row>, c: Call): Folio { FolioAt(table, c.countYear, c.printYear) }

  function RowsOf(table: seq<Row>, c: Call): seq<Row> {
    RowsFor(c.id, c.sale, FolioFor(table, c), c.requests, c.dbYear)
  }

  /** The table after a sequence of calls, from empty. */
  function TableAfter(calls: seq<Call>): seq<Row> {
    if calls == [] then []
    else
      var before := TableAfter(calls[..|calls| - 1]);
      before + RowsOf(before, calls[|calls| - 1])
  }

  function FolioOf(calls: seq<Call>, k: nat): Folio
    requires k < |calls|
  {
    FolioFor(TableAfter(calls[..k]), calls[k])
  }

  predicate OneReading(c: Call) { c.countYear == c.printYear }

  predicate ClocksAgree(calls: seq<Call>) {
    forall k :: 0 <= k < |calls| ==> OneReading(calls[k]) && calls[k].printYear == calls[k].dbYear
  }

  lemma {:induction false} TableIsBounded(calls: seq<Call>)
    requires ClocksAgree(calls)
    ensures FoliosBounded(TableAfter(calls))
  {
    if calls == [] {
    } else {
      var n := |calls| - 1;
      var before, c := TableAfter(calls[..n]), calls[n];
      TableIsBounded(calls[..n]);
      RowsWithinSold(c.id, c.sale, FolioFor(before, c), c.requests, c.dbYear);
      if RowsOf(before, c) != [] {
        assert OneReading(c);
        BoundKeptExactly(before, RowsOf(before, c), c.countYear, c.printYear, c.dbYear);
      } else {
        assert before + [] == before;
      }
    }
  }

  /** Rows once recorded stay where they are. */
  lemma {:induction false} TableGrows(calls: seq<Call>, k: nat)
    requires k < |calls|
    ensures TableAfter(calls[..k]) + RowsOf(TableAfter(calls[..k]), calls[k]) <= TableAfter(calls)
  {
    var n := |calls| - 1;
    if k < n {
      TableGrows(calls[..n], k);
      assert calls[..n][..k] == calls[..k];
    } else {
      assert calls[..n] == calls[..k];
    }
  }

  /** No call from the i-th up to the j-th recorded a row dated in `year` by the database. */
  predicate NoneDated(calls: seq<Call>, i: nat, j: nat, year: nat)
    requires j <= |calls|
  {
    forall k :: i <= k < j && calls[k].dbYear == year ==> RowsOf(TableAfter(calls[..k]), calls[k]) == []
  }

  lemma CountNext(calls: seq<Call>, k: nat, year: nat)
    requires k < |calls|
    ensures var rows := RowsOf(TableAfter(calls[..k]), calls[k]);
            CountYear(TableAfter(calls[..k + 1]), year)
            == CountYear(TableAfter(calls[..k]), year) + if calls[k].dbYear == year then |rows| else 0
  {
    var table, c := TableAfter(calls[..k]), calls[k];
    assert calls[..k + 1][..k] == calls[..k];
    RowsWithinSold(c.id, c.sale, FolioFor(table, c), c.requests, c.dbYear);
    CountsAfter(table, RowsOf(table, c), FolioFor(table, c), c.dbYear, year);
  }

  lemma NoneDatedNext(calls: seq<Call>, i: nat, j: nat, year: nat)
    requires i <= j < |calls|
    ensures NoneDated(calls, i, j + 1, year) <==>
            NoneDated(calls, i, j, year) && (calls[j].dbYear == year ==> RowsOf(TableAfter(calls[..j]), calls[j]) == [])
  {
  }

  function DatedBefore(calls: seq<Call>, k: nat, year: nat): nat
    requires k <= |calls|
  {
    CountYear(TableAfter(calls[..k]), year)
  }

  lemma DatedNext(calls: seq<Call>, i: nat, j: nat, year: nat)
    requires i <= j < |calls| && DatedBefore(calls, i, year) <= DatedBefore(calls, j, year)
    requires DatedBefore(calls, i, year) == DatedBefore(calls, j, year) <==> NoneDated(calls, i, j, year)
    ensures DatedBefore(calls, i, year) <= DatedBefore(calls, j + 1, year)
    ensures DatedBefore(calls, i, year) == DatedBefore(calls, j + 1, year) <==> NoneDated(calls, i, j + 1, year)
  {
    CountNext(calls, j, year);
    NoneDatedNext(calls, i, j, year);
  }

  /** A year's rows grow from one call to a later one unless no call between records a row of that year. */
  lemma {:induction false} CountsStayExactly(calls: seq<Call>, i: nat, j: nat, year: nat)
    requires i <= j <= |calls|
    ensures DatedBefore(calls, i, year) <= DatedBefore(calls, j, year)
    ensures DatedBefore(calls, i, year) == DatedBefore(calls, j, year) <==> NoneDated(calls, i, j, year)
    decreases j - i
  {
    if i == j {
    } else {
      CountsStayExactly(calls, i, j - 1, year);
      DatedNext(calls, i, j - 1, year);
    }
  }

  /** The rows a call counts. */
  function Counted(calls: seq<Call>, k: nat): nat
    requires k < |calls|
  {
    DatedBefore(calls, k, calls[k].countYear)
  }

  /**
   Two calls print the same folio exactly when they print one year and count equally many rows; if
   they count one year too, exactly when no call from the first up to the second recorded a row of it.
   */
  lemma FoliosEqualExactly(calls: seq<Call>, i: nat, j: nat)
    requires i < j < |calls|
    ensures FolioText(FolioOf(calls, i)) == FolioText(FolioOf(calls, j)) <==>
            calls[i].printYear == calls[j].printYear && Counted(calls, i) == Counted(calls, j)
    ensures calls[i].countYear == calls[j].countYear ==>
            (Counted(calls, i) == Counted(calls, j) <==> NoneDated(calls, i, j, calls[i].countYear))
  {
    CountsStayExactly(calls, i, j, calls[i].countYear);
    if FolioText(FolioOf(calls, i)) == FolioText(FolioOf(calls, j)) {
      FolioTextInjective(FolioOf(calls, i), FolioOf(calls, j));
    }
  }

  /** With one reading of the clock a call, the year printed is the year counted. */
  lemma OneReadingEqualExactly(calls: seq<Call>, i: nat, j: nat)
    requires i < j < |calls| && OneReading(calls[i]) && OneReading(calls[j])
    ensures FolioText(FolioOf(calls, i)) == FolioText(FolioOf(calls, j)) <==>
            calls[i].printYear == calls[j].printYear && NoneDated(calls, i, j, calls[i].printYear)
  {
    FoliosEqualExactly(calls, i, j);
  }

  function TotalAsked(calls: seq<Call>, id: SaleId, p: ProductId): int {
    if calls == [] then 0
    else
      var c := calls[|calls| - 1];
      TotalAsked(calls[..|calls| - 1], id, p) + if c.id == id then Asked(c.sale, c.requests, p) else 0
  }

  /** After any calls a product's returns are within its sale exactly when all that was asked of it is. */
  lemma {:induction false} ReturnsWithinExactly(calls: seq<Call>, id: SaleId, p: ProductId, sold: int)
    ensures ReturnedOf(TableAfter(calls), id, p) == TotalAsked(calls, id, p)
    ensures ReturnedOf(TableAfter(calls), id, p) <= sold <==> TotalAsked(calls, id, p) <= sold
  {
    if calls == [] {
    } else {
      var n := |calls| - 1;
      var table, c := TableAfter(calls[..n]), calls[n];
      ReturnsWithinExactly(calls[..n], id, p, sold);
      ReturnedOfAppend(table, RowsOf(table, c), id, p);
      RowsReturnAsked(c.id, c.sale, FolioFor(table, c), c.requests, c.dbYear, id, p);
    }
  }

  /** Of two calls that read the clock once, if the earlier recorded a row of the year it printed, the folios differ. */
  lemma FoliosAreDistinct(calls: seq<Call>, i: nat, j: nat)
    requires i < j < |calls| && OneReading(calls[i]) && OneReading(calls[j])
    requires calls[i].printYear == calls[i].dbYear && RowsOf(TableAfter(calls[..i]), calls[i]) != []
    ensures FolioText(FolioOf(calls, i)) != FolioText(FolioOf(calls, j))
  {
    OneReadingEqualExactly(calls, i, j);
  }

  lemma OneRow(table: seq<Row>, c: Call, p: ProductId)
    requires p in c.sale.items && c.sale.items[p].qty >= 1 && c.requests == [Request(p, 1)]
    ensures |RowsOf(table, c)| == 1 && RowsOf(table, c)[0].created == c.dbYear
  {
    assert c.requests[1..] == [];
    assert RowsFor(c.id, c.sale, FolioFor(table, c), c.requests[1..], c.dbYear) == [];
  }

  lemma TableNext(calls: seq<Call>, c: Call)
    ensures TableAfter(calls + [c]) == TableAfter(calls) + RowsOf(TableAfter(calls), c)
  {
    assert (calls + [c])[..|calls|] == calls;
  }

  /** A call for one unit records one row of its database year. */
  lemma OneRowCounts(calls: seq<Call>, c: Call, p: ProductId, year: nat)
    requires p in c.sale.items && c.sale.items[p].qty >= 1 && c.requests == [Request(p, 1)]
    ensures CountYear(TableAfter(calls + [c]), year) ==
            CountYear(TableAfter(calls), year) + if c.dbYear == year then 1 else 0
  {
    var table := TableAfter(calls);
    TableNext(calls, c);
    OneRow(table, c, p);
    CountAppend(table, RowsOf(table, c), year);
    CountUniform(RowsOf(table, c), c.dbYear, year);
  }

  /**
   At New Year the application's clock may be ahead of the transaction's: every return recorded
   then gets the same folio.
   */
  lemma NewYearRepeatsFolio(sale: Sale, p: ProductId, year: nat)
    requires p in sale.items && sale.items[p].qty >= 1
    ensures var call := Call(0, sale, [Request(p, 1)], year + 1, year + 1, year);
            var calls := [call, call];
            && RowsOf(TableAfter(calls[..0]), calls[0]) != []
            && FolioText(FolioOf(calls, 0)) == FolioText(FolioOf(calls, 1)) == FolioText(Folio(year + 1, 1))
  {
    var call := Call(0, sale, [Request(p, 1)], year + 1, year + 1, year);
    var calls := [call, call];
    assert calls[..0] == [] && calls[..1] == [] + [call];
    OneRow([], call, p);
    OneRowCounts([], call, p, year + 1);
  }

  /**
   A call over midnight counts the old year and prints the new one.  After one return of the old year,
   it and the first call of the new year, both recording a row, print the same folio.
   */
  lemma MidnightRepeatsFolio(sale: Sale, p: ProductId, year: nat)
    requires p in sale.items && sale.items[p].qty >= 1
    ensures var eve := Call(0, sale, [Request(p, 1)], year, year, year);
            var midnight := Call(0, sale, [Request(p, 1)], year, year + 1, year + 1);
            var morning := Call(0, sale, [Request(p, 1)], year + 1, year + 1, year + 1);
            var calls := [eve, midnight, morning];
            && RowsOf(TableAfter(calls[..1]), midnight) != [] && RowsOf(TableAfter(calls[..2]), morning) != []
            && FolioText(FolioOf(calls, 1)) == FolioText(FolioOf(calls, 2)) == FolioText(Folio(year + 1, 2))
  {
    var eve := Call(0, sale, [Request(p, 1)], year, year, year);
    var midnight := Call(0, sale, [Request(p, 1)], year, year + 1, year + 1);
    var morning := Call(0, sale, [Request(p, 1)], year + 1, year + 1, year + 1);
    var calls := [eve, midnight, morning];
    assert calls[..1] == [] + [eve] && calls[..2] == calls[..1] + [midnight];
    OneRow(TableAfter(calls[..1]), midnight, p);
    OneRow(TableAfter(calls[..2]), morning, p);
    OneRowCounts([], eve, p, year);
    OneRowCounts([], eve, p, year + 1);
    OneRowCounts(calls[..1], midnight, p, year + 1);
  }
}
