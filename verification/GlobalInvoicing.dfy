/**
 Global invoicing, backend/modules/fiscal/global_invoicing.py: what is selected, what a document
 does, and repeated calls of one period with nothing in between.  The database's answers and the
 outcome of stamping are inputs.
 */
module GlobalInvoicing {
  import opened Text
  import opened Calendar

  /** The optional date argument of a call. */
  datatype DateText = NoDate | Unreadable | Day(date: Date)

  type SaleId = nat
  type CfdiId = nat

  const LIMIT: nat := 10000

  datatype Serie = A | B | OtherSerie

  /** `day` is the ordinal of the sale's date, `stamp` its timestamp. */
  datatype Sale = Sale(serie: Serie, day: int, stamp: int, cancelled: bool)

  /** `own` are the sales with a CFDI of their own; `contents` what each global CFDI covers. */
  datatype Db = Db(sales: map<SaleId, Sale>, own: set<SaleId>, contents: seq<set<SaleId>>,
                   links: set<(SaleId, CfdiId)>)

  /**
   No document came to be; or it did and its sales were marked, with the id of the stored row; or it
   did, but storing it failed or the marking was rolled back.
   */
  datatype Outcome = Refused | Committed(cfdi: Option<CfdiId>) | Unmarked

  datatype CallError =
    | NothingPending | BadPeriod(error: PeriodError)
    | NothingSelected | NoneFound | BadDates
    | NotIssued | IssuedUnmarked

  // ---------------------------------------------------------------- the period of a call

  predicate ValidText(text: DateText) { text.Day? ==> Valid(text.date) }

  /** Without a date the call is about the day before; a text that is no date stands for the present day. */
  function PeriodFor(text: DateText, now: Date, kind: PeriodType): (r: Result<Period, PeriodError>)
    requires Valid(now) && ValidText(text)
    ensures r.Success? ==> ValidPeriod(r.value)
  {
    match text
    case NoDate =>
      (match AddDays(now, -1)
       case None => Failure(DateOverflow)
       case Some(yesterday) => CalculatePeriod(Some(yesterday), now, kind))
    case Unreadable => CalculatePeriod(None, now, kind)
    case Day(d) => CalculatePeriod(Some(d), now, kind)
  }

  /** A call without a date is about the period of the day before, whichever day of that period one names. */
  lemma DefaultCoversYesterday(now: Date, kind: PeriodType, d: Date)
    requires Valid(now) && Valid(d) && PeriodFor(NoDate, now, kind).Success?
    ensures Ordinal(d) == Ordinal(now) - 1 ==> InPeriod(PeriodFor(NoDate, now, kind).value, d)
    ensures InPeriod(PeriodFor(NoDate, now, kind).value, d) <==> PeriodFor(Day(d), now, kind) == PeriodFor(NoDate, now, kind)
  {
    var yesterday := AddDays(now, -1).value;
    PeriodsPartition(yesterday, d, kind);
  }

  /** A text that is no date stands for today, and a date is in the period of its call. */
  lemma PeriodOfCall(now: Date, kind: PeriodType, d: Date)
    requires Valid(now) && Valid(d)
    ensures PeriodFor(Unreadable, now, kind) == PeriodFor(Day(now), now, kind)
    ensures PeriodFor(Day(d), now, kind).Success? ==> InPeriod(PeriodFor(Day(d), now, kind).value, d)
  {
    if PeriodFor(Day(d), now, kind).Success? {
      PeriodsPartition(d, d, kind);
    }
  }

  // ---------------------------------------------------------------- what is selected

  predicate IsPending(db: Db, id: SaleId, first: int, last: int) {
    && id in db.sales
    && db.sales[id].serie == B
    && first <= db.sales[id].day <= last
    && !db.sales[id].cancelled
    && id !in db.own
  }

  function Pending(db: Db, first: int, last: int): (r: set<SaleId>)
    ensures forall id :: id in r <==> IsPending(db, id, first, last)
  {
    set id | id in db.sales && IsPending(db, id, first, last)
  }

  function Min(a: nat, b: nat): nat { if a < b then a else b }

  function Ids(rows: seq<SaleId>): (r: set<SaleId>)
    ensures forall id :: id in r <==> id in rows
  {
    set id | id in rows
  }

  function Stamp(db: Db, id: SaleId): int { if id in db.sales then db.sales[id].stamp else 0 }

  /** An answer of the query: the earliest pending sales, in time order, at most LIMIT of them. */
  ghost predicate IsBatch(db: Db, first: int, last: int, rows: seq<SaleId>) {
    && (forall i, j :: 0 <= i < j < |rows| ==> rows[i] != rows[j])
    && (forall id :: id in rows ==> IsPending(db, id, first, last))
    && |rows| == Min(LIMIT, |Pending(db, first, last)|)
    && (forall i, j :: 0 <= i < j < |rows| ==> Stamp(db, rows[i]) <= Stamp(db, rows[j]))
    && (forall id, other :: id in rows && IsPending(db, other, first, last) && other !in rows ==>
          Stamp(db, id) <= Stamp(db, other))
  }

  // ---------------------------------------------------------------- what a call does

  function Marked(sale: Sale): Sale { if sale.serie == B then sale.(serie := A) else sale }

  function MarkAll(sales: map<SaleId, Sale>, rows: set<SaleId>): (r: map<SaleId, Sale>)
    ensures r.Keys == sales.Keys
  {
    map id | id in sales :: if id in rows then Marked(sales[id]) else sales[id]
  }

  /** A global CFDI over `rows` comes to be. */
  function Documented(db: Db, rows: set<SaleId>): Db { db.(contents := db.contents + [rows]) }

  function Linked(links: set<(SaleId, CfdiId)>, rows: set<SaleId>, cfdi: Option<CfdiId>): set<(SaleId, CfdiId)> {
    if cfdi.Some? then links + (set id | id in rows :: (id, cfdi.value)) else links
  }

  /** Its sales leave series B and are linked to it. */
  function MarkSold(db: Db, rows: set<SaleId>, cfdi: Option<CfdiId>): Db {
    db.(sales := MarkAll(db.sales, rows),
        links := Linked(db.links, rows, cfdi))
  }

  function Issue(db: Db, rows: set<SaleId>, outcome: Outcome): Db {
    match outcome
    case Refused => db
    case Unmarked => Documented(db, rows)
    case Committed(cfdi) => MarkSold(Documented(db, rows), rows, cfdi)
  }

  function Verdict(rows: seq<SaleId>, outcome: Outcome): Result<nat, CallError> {
    if rows == [] then Failure(NothingPending)
    else match outcome
      case Refused => Failure(NotIssued)
      case Unmarked => Failure(IssuedUnmarked)
      case Committed(_) => Success(|rows|)
  }

  function AfterCall(db: Db, rows: seq<SaleId>, outcome: Outcome): Db {
    if rows == [] then db else Issue(db, Ids(rows), outcome)
  }

  /** The rows `generate_global_cfdi_from_selection` works on: any series, invoiced or not. */
  ghost predicate IsSelection(db: Db, wanted: set<SaleId>, rows: seq<SaleId>) {
    && (forall i, j :: 0 <= i < j < |rows| ==> rows[i] != rows[j])
    && forall id :: id in rows <==> id in wanted && id in db.sales && !db.sales[id].cancelled
  }

  /** A sale a period call may invoice: series B, in the period, neither cancelled nor with a CFDI of its own. */
  predicate MayBeInvoiced(db: Db, id: SaleId, first: int, last: int) {
    && id in db.sales && id !in db.own
    && var sale := db.sales[id]; sale.serie == B && !sale.cancelled && first <= sale.day <= last
  }

  lemma FullSubset(a: set<SaleId>, b: set<SaleId>)
    requires a <= b && |a| == |b|
    ensures a == b
  {
    assert b == a + (b - a);
    assert |b - a| == 0;
  }

  /** A period call selects only such sales, and all of them unless it reaches 10000. */
  lemma BatchIsOfThePeriod(db: Db, first: int, last: int, rows: seq<SaleId>, id: SaleId)
    requires IsBatch(db, first, last, rows)
    ensures |rows| <= 10000
    ensures id in rows ==> MayBeInvoiced(db, id, first, last)
    ensures |rows| < 10000 && MayBeInvoiced(db, id, first, last) ==> id in rows
  {
    DistinctCount(rows);
    assert Ids(rows) <= Pending(db, first, last);
    if |rows| < 10000 {
      FullSubset(Ids(rows), Pending(db, first, last));
      assert MayBeInvoiced(db, id, first, last) ==> id in Pending(db, first, last);
    }
  }

  /** Marking moves the sales of series B among the rows to series A and touches nothing else. */
  lemma MarkExactly(sales: map<SaleId, Sale>, rows: set<SaleId>, id: SaleId)
    requires id in sales
    ensures id in MarkAll(sales, rows)
    ensures var sale := sales[id];
            MarkAll(sales, rows)[id] ==
            if id in rows && sale.serie == B then Sale(A, sale.day, sale.stamp, sale.cancelled) else sale
  {
  }

  /** Linking adds a pair for each row, if the document has a number. */
  lemma LinkExactly(links: set<(SaleId, CfdiId)>, rows: set<SaleId>, cfdi: Option<CfdiId>, id: SaleId, c: CfdiId)
    ensures (id, c) in Linked(links, rows, cfdi) <==> (id, c) in links || (cfdi == Some(c) && id in rows)
  {
  }

  // ---------------------------------------------------------------- each sale once

  predicate Covered(db: Db, id: SaleId) { exists c :: 0 <= c < |db.contents| && id in db.contents[c] }

  /** No sale is in two global CFDIs. */
  predicate AtMostOnce(db: Db) {
    forall c, d :: 0 <= c < d < |db.contents| ==> db.contents[c] !! db.contents[d]
  }

  /** A covered sale has left series B, so the pending query cannot return it. */
  ghost predicate CoveredLeftB(db: Db) {
    forall c, id :: 0 <= c < |db.contents| && id in db.contents[c] ==> id in db.sales && db.sales[id].serie != B
  }

  ghost predicate Consistent(db: Db) { AtMostOnce(db) && CoveredLeftB(db) }

  /** Whoever selects, now or long before: issuing keeps the property exactly when nothing selected is covered. */
  lemma IssueKeepsExactly(db: Db, rows: set<SaleId>, outcome: Outcome)
    requires AtMostOnce(db) && !outcome.Refused?
    ensures AtMostOnce(Issue(db, rows, outcome)) <==> forall id :: id in rows ==> !Covered(db, id)
  {
    var after := Issue(db, rows, outcome);
    var n := |db.contents|;
    assert after.contents == db.contents + [rows];
    if AtMostOnce(after) {
      forall id | id in rows ensures !Covered(db, id) {
        forall c | 0 <= c < n ensures id !in db.contents[c] {
          assert after.contents[c] !! after.contents[n];
        }
      }
    }
    if forall id :: id in rows ==> !Covered(db, id) {
      forall c, d | 0 <= c < d < |after.contents| ensures after.contents[c] !! after.contents[d] {
        if d < n {
          assert db.contents[c] !! db.contents[d];
        } else {
          forall id | id in rows ensures id !in db.contents[c] {
            assert !Covered(db, id);
          }
        }
      }
    }
  }

  /** No sale is in two global CFDIs, nor in one while it has its own. */
  predicate InvoicedOnce(db: Db) {
    AtMostOnce(db) && OwnApart(db)
  }

  predicate OwnApart(db: Db) { forall c :: 0 <= c < |db.contents| ==> db.contents[c] !! db.own }

  lemma IssueInvoicesOnceExactly(db: Db, rows: set<SaleId>, outcome: Outcome)
    requires InvoicedOnce(db) && !outcome.Refused?
    ensures InvoicedOnce(Issue(db, rows, outcome)) <==> forall id :: id in rows ==> !Covered(db, id) && id !in db.own
  {
    var after := Issue(db, rows, outcome);
    IssueKeepsExactly(db, rows, outcome);
    assert after.contents == db.contents + [rows] && after.own == db.own;
    assert after.contents[|db.contents|] == rows;
  }

  /**
   Selection by id ignores earlier invoicing: it double-invoices exactly when it meets a sale in a
   global CFDI or with a CFDI of its own.
   */
  lemma SelectionDoubleInvoices(db: Db, wanted: set<SaleId>, rows: seq<SaleId>, outcome: Outcome)
    requires InvoicedOnce(db) && IsSelection(db, wanted, rows) && !outcome.Refused?
    ensures InvoicedOnce(AfterCall(db, rows, outcome)) <==>
            forall id :: id in wanted && id in db.sales && !db.sales[id].cancelled ==> !Covered(db, id) && id !in db.own
  {
    if rows != [] {
      IssueInvoicesOnceExactly(db, Ids(rows), outcome);
    } else {
      assert forall id :: id in wanted && id in db.sales && !db.sales[id].cancelled ==> id in rows;
    }
  }

  /** One sale with its own CFDI, selected by its number, is invoiced again. */
  lemma SelectionInvoicesTwice(sale: Sale, cfdi: Option<CfdiId>)
    requires !sale.cancelled
    ensures var db := Db(map[0 := sale], {0}, [], {});
            InvoicedOnce(db) && IsSelection(db, {0}, [0]) && !InvoicedOnce(AfterCall(db, [0], Committed(cfdi)))
  {
    var db := Db(map[0 := sale], {0}, [], {});
    IssueInvoicesOnceExactly(db, Ids([0]), Committed(cfdi));
    assert 0 in Ids([0]) && 0 in db.own;
  }

  /** Nothing the pending query returns is tied to a CFDI, of its own or global. */
  lemma PendingIsUninvoiced(db: Db, first: int, last: int, id: SaleId)
    requires Consistent(db) && IsPending(db, id, first, last)
    ensures !Covered(db, id) && id !in db.own
  {
  }

  /** A period call loses it only by issuing a document whose sales stay unmarked. */
  lemma ConsistencyIsLostExactly(db: Db, first: int, last: int, rows: seq<SaleId>, outcome: Outcome)
    requires Consistent(db) && IsBatch(db, first, last, rows)
    ensures Consistent(AfterCall(db, rows, outcome)) <==> !(outcome.Unmarked? && rows != [])
  {
    if outcome.Unmarked? && rows != [] {
      var after := AfterCall(db, rows, outcome);
      assert rows[0] in rows;
      assert rows[0] in after.contents[|db.contents|] && after.sales[rows[0]].serie == B;
    }
    if rows != [] && outcome.Committed? {
      forall id | id in Ids(rows) ensures !Covered(db, id) {
        PendingIsUninvoiced(db, first, last, id);
      }
      IssueKeepsExactly(db, Ids(rows), outcome);
      var after := AfterCall(db, rows, outcome);
      forall c, id | 0 <= c < |after.contents| && id in after.contents[c]
        ensures id in after.sales && after.sales[id].serie != B
      {
        if c < |db.contents| {
          assert id in db.contents[c];
        } else {
          assert id in rows;
        }
      }
    }
  }

  lemma DocumentKeepsPending(db: Db, first: int, last: int, rows: seq<SaleId>)
    requires IsBatch(db, first, last, rows)
    ensures IsBatch(Documented(db, Ids(rows)), first, last, rows)
  {
    assert Pending(Documented(db, Ids(rows)), first, last) == Pending(db, first, last);
  }

  lemma TwoDocuments(db: Db, rows: set<SaleId>, after: Db)
    requires rows != {} && after.contents == db.contents + [rows] + [rows]
    ensures !AtMostOnce(after)
  {
    var n := |db.contents|;
    assert after.contents[n] == rows && after.contents[n + 1] == rows;
  }

  /** When a document is issued but its sales stay unmarked, repeating the call invoices them twice. */
  lemma RepeatAfterFailureInvoicesTwice(db: Db, first: int, last: int, rows: seq<SaleId>, cfdi: Option<CfdiId>)
    requires IsBatch(db, first, last, rows) && rows != []
    ensures var once := AfterCall(db, rows, Unmarked);
            IsBatch(once, first, last, rows) && !AtMostOnce(AfterCall(once, rows, Committed(cfdi)))
  {
    DocumentKeepsPending(db, first, last, rows);
    assert rows[0] in Ids(rows);
    TwoDocuments(db, Ids(rows), AfterCall(AfterCall(db, rows, Unmarked), rows, Committed(cfdi)));
  }

  // ---------------------------------------------------------------- draining a period

  /** Successful calls of one period, one after another, with nothing in between. */
  ghost predicate Drains(dbs: seq<Db>, batches: seq<seq<SaleId>>, cfdis: seq<Option<CfdiId>>, first: int, last: int) {
    && |dbs| == |batches| + 1 && |cfdis| == |batches|
    && forall k :: 0 <= k < |batches| ==>
         IsBatch(dbs[k], first, last, batches[k])
         && dbs[k + 1] == AfterCall(dbs[k], batches[k], Committed(cfdis[k]))
  }

  lemma {:induction false} DistinctCount(rows: seq<SaleId>)
    requires forall i, j :: 0 <= i < j < |rows| ==> rows[i] != rows[j]
    ensures |Ids(rows)| == |rows|
  {
    if rows == [] {
    } else {
      var n := |rows| - 1;
      DistinctCount(rows[..n]);
      assert rows == rows[..n] + [rows[n]];
      assert Ids(rows) == Ids(rows[..n]) + {rows[n]};
    }
  }

  lemma BatchLeavesTheRest(db: Db, first: int, last: int, rows: seq<SaleId>, cfdi: Option<CfdiId>)
    requires IsBatch(db, first, last, rows)
    ensures var after := AfterCall(db, rows, Committed(cfdi));
            && Pending(after, first, last) == Pending(db, first, last) - Ids(rows)
            && |Pending(after, first, last)| == |Pending(db, first, last)| - |rows|
  {
    var before, after := Pending(db, first, last), AfterCall(db, rows, Committed(cfdi));
    DistinctCount(rows);
    assert Ids(rows) <= before;
    assert Pending(after, first, last) == before - Ids(rows);
  }

  function Less(a: nat, b: nat): nat { if a < b then 0 else a - b }

  lemma LessStep(n: nat, k: nat)
    requires k > 0
    ensures Less(n, k * LIMIT) == Less(n, (k - 1) * LIMIT) - Min(LIMIT, Less(n, (k - 1) * LIMIT))
  {
  }

  /** k successful calls leave all but k times LIMIT of the pending sales. */
  lemma {:induction false} CallsDrain(dbs: seq<Db>, batches: seq<seq<SaleId>>, cfdis: seq<Option<CfdiId>>,
                                     first: int, last: int, k: nat)
    requires Drains(dbs, batches, cfdis, first, last) && k < |dbs|
    ensures |Pending(dbs[k], first, last)| == Less(|Pending(dbs[0], first, last)|, k * 10000)
  {
    if k == 0 {
    } else {
      CallsDrain(dbs, batches, cfdis, first, last, k - 1);
      BatchLeavesTheRest(dbs[k - 1], first, last, batches[k - 1], cfdis[k - 1]);
      LessStep(|Pending(dbs[0], first, last)|, k);
    }
  }

  predicate InBatch(batches: seq<seq<SaleId>>, k: nat, id: SaleId) {
    exists j :: 0 <= j < k && j < |batches| && id in batches[j]
  }

  /** What was pending is still pending or was in one of the batches, and nothing else was. */
  lemma {:induction false} BatchesCoverWhatLeft(dbs: seq<Db>, batches: seq<seq<SaleId>>, cfdis: seq<Option<CfdiId>>,
                                               first: int, last: int, k: nat, id: SaleId)
    requires Drains(dbs, batches, cfdis, first, last) && k < |dbs|
    ensures id in Pending(dbs[0], first, last) <==> id in Pending(dbs[k], first, last) || InBatch(batches, k, id)
    ensures !(id in Pending(dbs[k], first, last) && InBatch(batches, k, id))
  {
    if k == 0 {
    } else {
      BatchesCoverWhatLeft(dbs, batches, cfdis, first, last, k - 1, id);
      BatchLeavesTheRest(dbs[k - 1], first, last, batches[k - 1], cfdis[k - 1]);
      assert InBatch(batches, k, id) <==> InBatch(batches, k - 1, id) || id in batches[k - 1];
    }
  }

  lemma StampsStay(dbs: seq<Db>, batches: seq<seq<SaleId>>, cfdis: seq<Option<CfdiId>>,
                   first: int, last: int, k: nat, id: SaleId)
    requires Drains(dbs, batches, cfdis, first, last) && k < |dbs|
    ensures Stamp(dbs[k], id) == Stamp(dbs[0], id)
  {
    if k == 0 {
    } else {
      StampsStay(dbs, batches, cfdis, first, last, k - 1, id);
      assert dbs[k - 1 + 1] == AfterCall(dbs[k - 1], batches[k - 1], Committed(cfdis[k - 1]));
    }
  }

  /** Earlier calls take the earlier sales. */
  lemma BatchesAreInTimeOrder(dbs: seq<Db>, batches: seq<seq<SaleId>>, cfdis: seq<Option<CfdiId>>,
                              first: int, last: int, j: nat, k: nat, x: SaleId, y: SaleId)
    requires Drains(dbs, batches, cfdis, first, last) && j < k < |batches| && x in batches[j] && y in batches[k]
    ensures Stamp(dbs[0], x) <= Stamp(dbs[0], y)
  {
    StampsStay(dbs, batches, cfdis, first, last, j, x);
    StampsStay(dbs, batches, cfdis, first, last, j, y);
    assert IsBatch(dbs[j], first, last, batches[j]) && IsBatch(dbs[k], first, last, batches[k]);
    assert y in Pending(dbs[k], first, last);
    StillPending(dbs, batches, cfdis, first, last, j + 1, k, y);
    BatchLeavesTheRest(dbs[j], first, last, batches[j], cfdis[j]);
  }

  /** A sale pending later was pending before. */
  lemma {:induction false} StillPending(dbs: seq<Db>, batches: seq<seq<SaleId>>, cfdis: seq<Option<CfdiId>>,
                                       first: int, last: int, j: nat, k: nat, id: SaleId)
    requires Drains(dbs, batches, cfdis, first, last) && j <= k < |dbs| && id in Pending(dbs[k], first, last)
    ensures id in Pending(dbs[j], first, last)
    decreases k - j
  {
    if j == k {
    } else {
      BatchLeavesTheRest(dbs[k - 1], first, last, batches[k - 1], cfdis[k - 1]);
      StillPending(dbs, batches, cfdis, first, last, j, k - 1, id);
    }
  }

  /** Once that many calls succeeded nothing is pending, and the next call says so and changes nothing. */
  lemma DrainedPeriodReportsNone(dbs: seq<Db>, batches: seq<seq<SaleId>>, cfdis: seq<Option<CfdiId>>,
                                 first: int, last: int, rows: seq<SaleId>, outcome: Outcome)
    requires Drains(dbs, batches, cfdis, first, last)
    requires |Pending(dbs[0], first, last)| <= |batches| * 10000
    requires IsBatch(dbs[|batches|], first, last, rows)
    ensures rows == [] && Verdict(rows, outcome) == Failure(NothingPending)
    ensures AfterCall(dbs[|batches|], rows, outcome) == dbs[|batches|]
  {
    CallsDrain(dbs, batches, cfdis, first, last, |batches|);
  }
}
