/**
 The calls of backend/modules/fiscal/global_invoicing.py as they interleave.  A call selects its
 sales, awaits the stamping of its document, and then marks the sales in one transaction; any number
 of calls may be at any of these points.
 */
module InvoicingCalls {
  import opened Text
  import opened Calendar
  import opened GlobalInvoicing

  type CallId = nat

  datatype Stage = Selected | Issued(cfdi: Option<CfdiId>) | Over

  /** A call that found sales. */
  datatype Call = Call(rows: seq<SaleId>, stage: Stage)

  /** `calls` are all that ever found sales, by number. */
  datatype World = World(db: Db, calls: seq<Call>)

  /** What stamping comes to: no document, a stored one, or a document whose row could not be stored. */
  datatype Issuing = NoDocument | Stored(cfdi: Option<CfdiId>) | NotStored

  datatype Event =
    | NewSale(id: SaleId, sale: Sale)
    | CancelSale(id: SaleId)
    | OwnCfdi(id: SaleId, promoted: bool)
    | SelectPeriod(first: int, last: int, rows: seq<SaleId>)
    | SelectIds(wanted: set<SaleId>, rows: seq<SaleId>, datesRead: bool)
    | Document(call: CallId, issuing: Issuing)
    | Mark(call: CallId)
    | Abandon(call: CallId)

  ghost predicate Enabled(w: World, e: Event) {
    match e
    case NewSale(id, _) => id !in w.db.sales && id !in w.db.own
    case CancelSale(id) => id in w.db.sales
    case OwnCfdi(id, _) => id in w.db.sales
    case SelectPeriod(first, last, rows) => IsBatch(w.db, first, last, rows)
    case SelectIds(wanted, rows, _) => IsSelection(w.db, wanted, rows)
    case Document(c, _) => c < |w.calls| && w.calls[c].stage.Selected?
    case Mark(c) => c < |w.calls| && w.calls[c].stage.Issued?
    case Abandon(c) => c < |w.calls| && !w.calls[c].stage.Over?
  }

  /** Does this event open a call with sales to invoice? */
  predicate Opens(e: Event) {
    (e.SelectPeriod? && e.rows != []) || (e.SelectIds? && e.rows != [] && e.datesRead)
  }

  function Begun(w: World, rows: seq<SaleId>): World { w.(calls := w.calls + [Call(rows, Selected)]) }

  function Moved(w: World, c: CallId, stage: Stage): World
    requires c < |w.calls|
  {
    w.(calls := w.calls[c := w.calls[c].(stage := stage)])
  }

  function AfterDocument(w: World, c: CallId, issuing: Issuing): World
    requires c < |w.calls|
  {
    var issued := Documented(w.db, Ids(w.calls[c].rows));
    match issuing
    case NoDocument => Moved(w, c, Over)
    case Stored(cfdi) => Moved(w, c, Issued(cfdi)).(db := issued)
    case NotStored => Moved(w, c, Over).(db := issued)
  }

  ghost function Step(w: World, e: Event): World
    requires Enabled(w, e)
  {
    match e
    case NewSale(id, sale) => w.(db := w.db.(sales := w.db.sales[id := sale]))
    case CancelSale(id) => w.(db := w.db.(sales := w.db.sales[id := w.db.sales[id].(cancelled := true)]))
    case OwnCfdi(id, promoted) =>
      w.(db := w.db.(own := w.db.own + {id},
                     sales := if promoted then w.db.sales[id := Marked(w.db.sales[id])] else w.db.sales))
    case SelectPeriod(_, _, rows) => if Opens(e) then Begun(w, rows) else w
    case SelectIds(_, rows, _) => if Opens(e) then Begun(w, rows) else w
    case Document(c, issuing) => AfterDocument(w, c, issuing)
    case Mark(c) => Moved(w, c, Over).(db := MarkSold(w.db, Ids(w.calls[c].rows), w.calls[c].stage.cfdi))
    case Abandon(c) => Moved(w, c, Over)
  }

  /** A call with nothing in between: select, stamp, mark. */
  lemma WholeCall(w: World, first: int, last: int, rows: seq<SaleId>, cfdi: Option<CfdiId>)
    requires IsBatch(w.db, first, last, rows) && rows != []
    ensures var c := |w.calls|;
            var w1 := Step(w, SelectPeriod(first, last, rows));
            && Enabled(w1, Document(c, Stored(cfdi)))
            && var w2 := Step(w1, Document(c, Stored(cfdi)));
            && Enabled(w2, Mark(c))
            && Step(w2, Mark(c)).db == AfterCall(w.db, rows, Committed(cfdi))
            && Step(w1, Document(c, NotStored)).db == AfterCall(w.db, rows, Unmarked)
            && Step(w2, Abandon(c)).db == AfterCall(w.db, rows, Unmarked)
            && Step(w1, Document(c, NoDocument)).db == AfterCall(w.db, rows, Refused)
  {
  }

  // ---------------------------------------------------------------- the service

  /** The service's two entry points and what their answers do, over its database. */
  class GlobalInvoicingService {
    var sales: map<SaleId, Sale>
    var own: set<SaleId>
    var contents: seq<set<SaleId>>
    var links: set<(SaleId, CfdiId)>
    var calls: seq<Call>

    function View(): World
      reads this
    {
      World(Db(sales, own, contents, links), calls)
    }

    constructor (db: Db)
      ensures View() == World(db, [])
    {
      sales, own, contents, links, calls := db.sales, db.own, db.contents, db.links, [];
    }

    /** `generate_global_cfdi` up to stamping; `rows` is what the pending query returns for the period. */
    method GenerateGlobalCfdi(kind: PeriodType, text: DateText, now: Date, rows: seq<SaleId>)
      returns (r: Option<CallError>)
      requires Valid(now) && ValidText(text)
      requires var p := PeriodFor(text, now, kind);
               p.Success? ==> IsBatch(View().db, Ordinal(p.value.start), Ordinal(p.value.end), rows)
      modifies this
      ensures var p := PeriodFor(text, now, kind);
              match p
              case Failure(error) => View() == old(View()) && r == Some(BadPeriod(error))
              case Success(period) =>
                && View() == Step(old(View()), SelectPeriod(Ordinal(period.start), Ordinal(period.end), rows))
                && r == if rows == [] then Some(NothingPending) else None
    {
      var p := PeriodFor(text, now, kind);
      if p.Failure? {
        return Some(BadPeriod(p.error));
      }
      if rows == [] {
        return Some(NothingPending);
      }
      calls := calls + [Call(rows, Selected)];
      r := None;
    }

    /** `generate_global_cfdi_from_selection` up to stamping; `datesRead` says whether both dates parse. */
    method GenerateGlobalCfdiFromSelection(wanted: set<SaleId>, rows: seq<SaleId>, datesRead: bool)
      returns (r: Option<CallError>)
      requires IsSelection(View().db, wanted, rows)
      modifies this
      ensures View() == Step(old(View()), SelectIds(wanted, rows, datesRead))
      ensures r == if wanted == {} then Some(NothingSelected) else if rows == [] then Some(NoneFound)
                   else if !datesRead then Some(BadDates) else None
    {
      assert rows != [] ==> rows[0] in rows;
      if wanted == {} {
        return Some(NothingSelected);
      }
      if rows == [] {
        return Some(NoneFound);
      }
      if !datesRead {
        return Some(BadDates);
      }
      calls := calls + [Call(rows, Selected)];
      r := None;
    }

    /** Stamping answers, and the document's row is stored. */
    method DocumentAnswered(c: CallId, issuing: Issuing) returns (r: Option<CallError>)
      requires Enabled(View(), Document(c, issuing))
      modifies this
      ensures View() == Step(old(View()), Document(c, issuing))
      ensures r == match issuing
                   case NoDocument => Some(NotIssued)
                   case Stored(_) => None
                   case NotStored => Some(IssuedUnmarked)
    {
      if issuing.NoDocument? {
        calls := calls[c := calls[c].(stage := Over)];
        return Some(NotIssued);
      }
      contents := contents + [Ids(calls[c].rows)];
      if issuing.NotStored? {
        calls := calls[c := calls[c].(stage := Over)];
        return Some(IssuedUnmarked);
      }
      calls := calls[c := calls[c].(stage := Issued(issuing.cfdi))];
      r := None;
    }

    /** The loop inside the transaction: series and link row, sale by sale. */
    method MarkRows(rows: seq<SaleId>, cfdi: Option<CfdiId>)
      modifies this`sales, this`links
      ensures sales == MarkAll(old(sales), Ids(rows)) && links == Linked(old(links), Ids(rows), cfdi)
    {
      ghost var before, linked := sales, links;
      for k := 0 to |rows|
        invariant sales == MarkAll(before, Ids(rows[..k]))
        invariant links == Linked(linked, Ids(rows[..k]), cfdi)
      {
        var id := rows[k];
        assert rows[..k + 1] == rows[..k] + [id];
        MarkNext(before, rows[..k], id);
        LinkNext(linked, rows[..k], id, cfdi);
        if id in sales && sales[id].serie == B {
          sales := sales[id := sales[id].(serie := A)];
        }
        if cfdi.Some? && (id, cfdi.value) !in links {
          links := links + {(id, cfdi.value)};
        }
      }
      assert rows[..|rows|] == rows;
    }

    /** The marking transaction commits. */
    method MarkSales(c: CallId) returns (count: nat)
      requires Enabled(View(), Mark(c))
      modifies this`sales, this`links, this`calls
      ensures View() == Step(old(View()), Mark(c))
      ensures count == |old(calls)[c].rows|
    {
      count := |calls[c].rows|;
      MarkRows(calls[c].rows, calls[c].stage.cfdi);
      calls := calls[c := calls[c].(stage := Over)];
    }

    /** The transaction is rolled back, or the process ends. */
    method CallAbandoned(c: CallId)
      requires Enabled(View(), Abandon(c))
      modifies this`calls
      ensures View() == Step(old(View()), Abandon(c))
    {
      calls := calls[c := calls[c].(stage := Over)];
    }
  }

  lemma MarkNext(sales: map<SaleId, Sale>, rows: seq<SaleId>, id: SaleId)
    ensures var m := MarkAll(sales, Ids(rows));
            MarkAll(sales, Ids(rows + [id])) ==
            if id in m && m[id].serie == B then m[id := m[id].(serie := A)] else m
  {
    assert Ids(rows + [id]) == Ids(rows) + {id};
  }

  lemma LinkNext(links: set<(SaleId, CfdiId)>, rows: seq<SaleId>, id: SaleId, cfdi: Option<CfdiId>)
    ensures Linked(links, Ids(rows + [id]), cfdi) ==
            if cfdi.Some? then Linked(links, Ids(rows), cfdi) + {(id, cfdi.value)} else links
  {
    assert Ids(rows + [id]) == Ids(rows) + {id};
  }

  // ---------------------------------------------------------------- runs

  ghost predicate Behaviour(ws: seq<World>, es: seq<Event>) {
    && |ws| == |es| + 1
    && ws[0].db.contents == [] && ws[0].calls == []
    && forall k :: 0 <= k < |es| ==> Follows(ws, es, k)
  }

  /** The k-th step can happen and leads to the next state. */
  ghost predicate Follows(ws: seq<World>, es: seq<Event>, k: nat)
    requires k < |es| < |ws|
  {
    Enabled(ws[k], es[k]) && ws[k + 1] == Step(ws[k], es[k])
  }

  predicate Issues(e: Event) { e.Document? && !e.issuing.NoDocument? }

  /** The k-th step brings about a document over the sale. */
  predicate Documents(ws: seq<World>, es: seq<Event>, k: nat, id: SaleId)
    requires k < |es| < |ws|
  {
    Issues(es[k]) && es[k].call < |ws[k].calls| && id in ws[k].calls[es[k].call].rows
  }

  predicate GivesOwn(e: Event, id: SaleId) { e.OwnCfdi? && e.id == id }

  lemma StepCovers(w: World, e: Event, id: SaleId)
    requires Enabled(w, e)
    ensures Covered(Step(w, e).db, id) <==> Covered(w.db, id) || (Issues(e) && id in w.calls[e.call].rows)
    ensures id in Step(w, e).db.own <==> id in w.db.own || GivesOwn(e, id)
  {
    var db, after := w.db, Step(w, e).db;
    if Issues(e) {
      assert after.contents == db.contents + [Ids(w.calls[e.call].rows)];
      assert after.contents[|db.contents|] == Ids(w.calls[e.call].rows);
      assert forall c :: 0 <= c < |db.contents| ==> after.contents[c] == db.contents[c];
    } else {
      assert after.contents == db.contents;
    }
  }

  /** Some step from the i-th up to the k-th brings about a document over the sale. */
  predicate DocumentedBetween(ws: seq<World>, es: seq<Event>, i: nat, k: nat, id: SaleId)
    requires k <= |es| < |ws|
  {
    exists j :: i <= j < k && Documents(ws, es, j, id)
  }

  predicate OwnBetween(es: seq<Event>, i: nat, k: nat, id: SaleId)
    requires k <= |es|
  {
    exists j :: i <= j < k && GivesOwn(es[j], id)
  }

  lemma BetweenNext(ws: seq<World>, es: seq<Event>, i: nat, k: nat, id: SaleId)
    requires i <= k < |es| < |ws|
    ensures DocumentedBetween(ws, es, i, k + 1, id) <==> DocumentedBetween(ws, es, i, k, id) || Documents(ws, es, k, id)
    ensures OwnBetween(es, i, k + 1, id) <==> OwnBetween(es, i, k, id) || GivesOwn(es[k], id)
  {
  }

  /** What is covered, and what has its own CFDI, only grows. */
  lemma {:induction false} CoveredSince(ws: seq<World>, es: seq<Event>, i: nat, k: nat, id: SaleId)
    requires Behaviour(ws, es) && i <= k <= |es|
    ensures Covered(ws[k].db, id) <==> Covered(ws[i].db, id) || DocumentedBetween(ws, es, i, k, id)
    ensures id in ws[k].db.own <==> id in ws[i].db.own || OwnBetween(es, i, k, id)
    decreases k - i
  {
    if i == k {
    } else {
      CoveredSince(ws, es, i, k - 1, id);
      assert Follows(ws, es, k - 1);
      StepCovers(ws[k - 1], es[k - 1], id);
      BetweenNext(ws, es, i, k - 1, id);
    }
  }

  // ---------------------------------------------------------------- which selection a document is from

  /** The i-th step opens the call with this number. */
  predicate Begins(ws: seq<World>, es: seq<Event>, i: nat, c: CallId)
    requires i < |es| < |ws|
  {
    Opens(es[i]) && |ws[i].calls| == c
  }

  lemma StepKeepsCalls(w: World, e: Event)
    requires Enabled(w, e)
    ensures |Step(w, e).calls| == |w.calls| + if Opens(e) then 1 else 0
    ensures forall c :: 0 <= c < |w.calls| ==> Step(w, e).calls[c].rows == w.calls[c].rows
    ensures Opens(e) ==> Step(w, e).calls[|w.calls|].rows == e.rows
  {
  }

  lemma {:induction false} CallsStay(ws: seq<World>, es: seq<Event>, i: nat, k: nat)
    requires Behaviour(ws, es) && i <= k <= |es|
    ensures |ws[i].calls| <= |ws[k].calls|
    ensures forall c :: 0 <= c < |ws[i].calls| ==> ws[k].calls[c].rows == ws[i].calls[c].rows
    decreases k - i
  {
    if i == k {
    } else {
      CallsStay(ws, es, i, k - 1);
      assert Follows(ws, es, k - 1);
      StepKeepsCalls(ws[k - 1], es[k - 1]);
    }
  }

  /** A call invoices what its selection found. */
  lemma RowsOfBegun(ws: seq<World>, es: seq<Event>, i: nat, k: nat, c: CallId)
    requires Behaviour(ws, es) && i < k <= |es| && Begins(ws, es, i, c)
    ensures c < |ws[k].calls| && ws[k].calls[c].rows == es[i].rows
  {
    assert Follows(ws, es, i);
    StepKeepsCalls(ws[i], es[i]);
    CallsStay(ws, es, i + 1, k);
  }

  lemma {:induction false} EveryCallBegan(ws: seq<World>, es: seq<Event>, k: nat, c: CallId) returns (i: nat)
    requires Behaviour(ws, es) && k <= |es| && c < |ws[k].calls|
    ensures i < k && Begins(ws, es, i, c)
  {
    assert Follows(ws, es, k - 1);
    StepKeepsCalls(ws[k - 1], es[k - 1]);
    if c < |ws[k - 1].calls| {
      i := EveryCallBegan(ws, es, k - 1, c);
    } else {
      i := k - 1;
    }
  }

  // ---------------------------------------------------------------- exactly which runs

  /** The call whose document the k-th step brings about was opened by the i-th step. */
  predicate IssuesFrom(ws: seq<World>, es: seq<Event>, i: nat, k: nat)
    requires i < k < |es| < |ws|
  {
    Issues(es[k]) && Begins(ws, es, i, es[k].call)
  }

  /** At its selection the sale is in no document, and none over it comes before this call's own. */
  predicate Undocumented(ws: seq<World>, es: seq<Event>, i: nat, k: nat, id: SaleId)
    requires i < k < |es| < |ws|
  {
    !Covered(ws[i].db, id) && !DocumentedBetween(ws, es, i, k, id)
  }

  /** The k-th step is no document over a sale that had one at the call's selection or got one since. */
  predicate RepeatsNone(ws: seq<World>, es: seq<Event>, k: nat)
    requires k < |es| < |ws|
  {
    forall i, id :: 0 <= i < k && IssuesFrom(ws, es, i, k) && id in es[i].rows ==> Undocumented(ws, es, i, k, id)
  }

  lemma RepeatsNoneMeans(ws: seq<World>, es: seq<Event>, k: nat)
    requires Behaviour(ws, es) && k < |es| && Issues(es[k])
    ensures es[k].call < |ws[k].calls|
    ensures RepeatsNone(ws, es, k) <==> forall id :: id in ws[k].calls[es[k].call].rows ==> !Covered(ws[k].db, id)
  {
    assert Follows(ws, es, k);
    var c := es[k].call;
    var rows := ws[k].calls[c].rows;
    var i := EveryCallBegan(ws, es, k, c);
    assert IssuesFrom(ws, es, i, k);
    RowsOfBegun(ws, es, i, k, c);
    forall id ensures Undocumented(ws, es, i, k, id) <==> !Covered(ws[k].db, id) {
      CoveredSince(ws, es, i, k, id);
    }
    if forall id :: id in rows ==> !Covered(ws[k].db, id) {
      forall m, id | 0 <= m < k && IssuesFrom(ws, es, m, k) && id in es[m].rows ensures Undocumented(ws, es, m, k, id) {
        RowsOfBegun(ws, es, m, k, c);
        CoveredSince(ws, es, m, k, id);
      }
    }
  }

  lemma StaysTwice(db: Db, after: Db, rows: set<SaleId>)
    requires !AtMostOnce(db) && after.contents == db.contents + [rows]
    ensures !AtMostOnce(after)
  {
    var c, d :| 0 <= c < d < |db.contents| && !(db.contents[c] !! db.contents[d]);
    assert after.contents[c] == db.contents[c] && after.contents[d] == db.contents[d];
  }

  lemma DocumentKeepsExactly(db: Db, rows: set<SaleId>, after: Db)
    requires after.contents == db.contents + [rows]
    ensures AtMostOnce(after) <==> AtMostOnce(db) && forall id :: id in rows ==> !Covered(db, id)
  {
    if AtMostOnce(db) {
      IssueKeepsExactly(db, rows, Unmarked);
      assert Issue(db, rows, Unmarked).contents == after.contents;
    } else {
      StaysTwice(db, after, rows);
    }
  }

  lemma AtMostOnceNext(ws: seq<World>, es: seq<Event>, k: nat)
    requires Behaviour(ws, es) && k < |es|
    ensures AtMostOnce(ws[k + 1].db) <==> AtMostOnce(ws[k].db) && RepeatsNone(ws, es, k)
  {
    assert Follows(ws, es, k);
    if Issues(es[k]) {
      RepeatsNoneMeans(ws, es, k);
      DocumentKeepsExactly(ws[k].db, Ids(ws[k].calls[es[k].call].rows), ws[k + 1].db);
    } else {
      assert ws[k + 1].db.contents == ws[k].db.contents;
    }
  }

  /**
   In any interleaving, no sale is in two global CFDIs exactly when no call's document is over a sale
   that was in a document when the call selected it or got into one between selection and document.
   */
  lemma {:induction false} EachSaleAtMostOnceExactly(ws: seq<World>, es: seq<Event>, n: nat)
    requires Behaviour(ws, es) && n <= |es|
    ensures AtMostOnce(ws[n].db) <==> forall k :: 0 <= k < n ==> RepeatsNone(ws, es, k)
  {
    if n == 0 {
    } else {
      EachSaleAtMostOnceExactly(ws, es, n - 1);
      AtMostOnceNext(ws, es, n - 1);
    }
  }

  /** The k-th step is no document over a sale that had its own CFDI at the selection or got it since. */
  predicate FollowsNoOwn(ws: seq<World>, es: seq<Event>, k: nat)
    requires k < |es| < |ws|
  {
    forall i, id :: 0 <= i < k && IssuesFrom(ws, es, i, k) && id in es[i].rows ==>
      id !in ws[i].db.own && !OwnBetween(es, i, k, id)
  }

  /** The k-th step is no CFDI of its own for a sale in a document. */
  predicate OwnIsFirst(ws: seq<World>, es: seq<Event>, k: nat)
    requires k < |es| < |ws|
  {
    es[k].OwnCfdi? ==> !Covered(ws[k].db, es[k].id)
  }

  lemma FollowsNoOwnMeans(ws: seq<World>, es: seq<Event>, k: nat)
    requires Behaviour(ws, es) && k < |es| && Issues(es[k])
    ensures es[k].call < |ws[k].calls|
    ensures FollowsNoOwn(ws, es, k) <==> forall id :: id in ws[k].calls[es[k].call].rows ==> id !in ws[k].db.own
  {
    assert Follows(ws, es, k);
    var c := es[k].call;
    var rows := ws[k].calls[c].rows;
    var i := EveryCallBegan(ws, es, k, c);
    assert IssuesFrom(ws, es, i, k);
    RowsOfBegun(ws, es, i, k, c);
    forall id ensures id in ws[k].db.own <==> id in ws[i].db.own || OwnBetween(es, i, k, id) {
      CoveredSince(ws, es, i, k, id);
    }
    if forall id :: id in rows ==> id !in ws[k].db.own {
      forall m, id | 0 <= m < k && IssuesFrom(ws, es, m, k) && id in es[m].rows
        ensures id !in ws[m].db.own && !OwnBetween(es, m, k, id)
      {
        RowsOfBegun(ws, es, m, k, c);
        CoveredSince(ws, es, m, k, id);
      }
    }
  }

  lemma OwnApartNext(ws: seq<World>, es: seq<Event>, k: nat)
    requires Behaviour(ws, es) && k < |es|
    ensures OwnApart(ws[k + 1].db) <==> OwnApart(ws[k].db) && FollowsNoOwn(ws, es, k) && OwnIsFirst(ws, es, k)
  {
    assert Follows(ws, es, k);
    var db, after := ws[k].db, ws[k + 1].db;
    if Issues(es[k]) {
      FollowsNoOwnMeans(ws, es, k);
      assert after.contents == db.contents + [Ids(ws[k].calls[es[k].call].rows)] && after.own == db.own;
      assert after.contents[|db.contents|] == Ids(ws[k].calls[es[k].call].rows);
      assert forall c :: 0 <= c < |db.contents| ==> after.contents[c] == db.contents[c];
    } else {
      assert after.contents == db.contents;
      assert after.own == if es[k].OwnCfdi? then db.own + {es[k].id} else db.own;
    }
  }

  /**
   In any interleaving, every sale is in one CFDI at most, of its own or global, exactly when besides
   no document is over a sale with its own CFDI and no sale in a document gets one.
   */
  lemma {:induction false} InvoicedOnceExactly(ws: seq<World>, es: seq<Event>, n: nat)
    requires Behaviour(ws, es) && n <= |es|
    ensures InvoicedOnce(ws[n].db) <==>
            forall k :: 0 <= k < n ==> RepeatsNone(ws, es, k) && FollowsNoOwn(ws, es, k) && OwnIsFirst(ws, es, k)
  {
    if n == 0 {
    } else {
      InvoicedOnceExactly(ws, es, n - 1);
      AtMostOnceNext(ws, es, n - 1);
      OwnApartNext(ws, es, n - 1);
    }
  }

  // ---------------------------------------------------------------- period selections

  /** The k-th step marks the sale. */
  predicate Marks(ws: seq<World>, es: seq<Event>, k: nat, id: SaleId)
    requires k < |es| < |ws|
  {
    es[k].Mark? && es[k].call < |ws[k].calls| && id in ws[k].calls[es[k].call].rows
  }

  predicate LeftB(w: World, id: SaleId) { id in w.db.sales && w.db.sales[id].serie != B }

  lemma StepKeepsLeftB(w: World, e: Event, id: SaleId)
    requires Enabled(w, e)
    ensures LeftB(w, id) ==> LeftB(Step(w, e), id)
    ensures id in w.db.sales ==> id in Step(w, e).db.sales
    ensures e.Mark? && id in w.calls[e.call].rows && id in w.db.sales ==> LeftB(Step(w, e), id)
  {
  }

  lemma {:induction false} SalesStay(ws: seq<World>, es: seq<Event>, i: nat, k: nat, id: SaleId)
    requires Behaviour(ws, es) && i <= k <= |es|
    ensures id in ws[i].db.sales ==> id in ws[k].db.sales
    ensures LeftB(ws[i], id) ==> LeftB(ws[k], id)
    decreases k - i
  {
    if i == k {
    } else {
      SalesStay(ws, es, i, k - 1, id);
      assert Follows(ws, es, k - 1);
      StepKeepsLeftB(ws[k - 1], es[k - 1], id);
    }
  }

  /** Marked sales leave series B for good. */
  lemma MarkedLeavesB(ws: seq<World>, es: seq<Event>, m: nat, k: nat, id: SaleId)
    requires Behaviour(ws, es) && m < k <= |es| && Marks(ws, es, m, id)
    ensures LeftB(ws[k], id)
  {
    var c := es[m].call;
    var i := EveryCallBegan(ws, es, m, c);
    RowsOfBegun(ws, es, i, m, c);
    assert Follows(ws, es, i) && Follows(ws, es, m);
    SalesStay(ws, es, i, m, id);
    StepKeepsLeftB(ws[m], es[m], id);
    SalesStay(ws, es, m + 1, k, id);
  }

  /**
   A pending sale has no CFDI of its own, and it is in a document exactly when an earlier call
   documented it and none has marked it yet.
   */
  lemma PendingIsOpenExactly(ws: seq<World>, es: seq<Event>, i: nat, id: SaleId, first: int, last: int)
    requires Behaviour(ws, es) && i <= |es| && IsPending(ws[i].db, id, first, last)
    ensures id !in ws[i].db.own
    ensures Covered(ws[i].db, id) <==> DocumentedBetween(ws, es, 0, i, id)
    ensures forall m :: 0 <= m < i ==> !Marks(ws, es, m, id)
  {
    CoveredSince(ws, es, 0, i, id);
    forall m | 0 <= m < i ensures !Marks(ws, es, m, id) {
      if Marks(ws, es, m, id) {
        MarkedLeavesB(ws, es, m, i, id);
      }
    }
  }

  /** The k-th step takes the sale out of series B: a marking, or a promotion with its own CFDI. */
  predicate TakesOut(ws: seq<World>, es: seq<Event>, k: nat, id: SaleId)
    requires k < |es| < |ws|
  {
    Marks(ws, es, k, id) || (GivesOwn(es[k], id) && es[k].promoted)
  }

  predicate InB(w: World, id: SaleId) { id in w.db.sales && w.db.sales[id].serie == B }

  lemma StepTakesOut(ws: seq<World>, es: seq<Event>, k: nat, id: SaleId)
    requires Behaviour(ws, es) && k < |es| && InB(ws[k], id)
    ensures InB(ws[k + 1], id) <==> !TakesOut(ws, es, k, id)
    ensures TakesOut(ws, es, k, id) ==> id in ws[k + 1].db.sales && ws[k + 1].db.sales[id].serie == A
  {
    assert Follows(ws, es, k);
  }

  /** A sale of series B stays in it exactly as long as no step takes it out. */
  lemma {:induction false} StaysInBExactly(ws: seq<World>, es: seq<Event>, i: nat, k: nat, id: SaleId)
    requires Behaviour(ws, es) && i <= k <= |es| && InB(ws[i], id)
    ensures InB(ws[k], id) <==> forall j :: i <= j < k ==> !TakesOut(ws, es, j, id)
    decreases k - i
  {
    if i == k {
    } else {
      StaysInBExactly(ws, es, i, k - 1, id);
      if InB(ws[k - 1], id) {
        StepTakesOut(ws, es, k - 1, id);
      } else {
        SalesStay(ws, es, i, k - 1, id);
        SalesStay(ws, es, k - 1, k, id);
      }
    }
  }

  /** The k-th step links the sale to the document's row. */
  predicate LinksTo(ws: seq<World>, es: seq<Event>, k: nat, id: SaleId, cfdi: CfdiId)
    requires k < |es| < |ws|
  {
    Marks(ws, es, k, id) && ws[k].calls[es[k].call].stage == Issued(Some(cfdi))
  }

  predicate LinkedBefore(ws: seq<World>, es: seq<Event>, k: nat, id: SaleId, cfdi: CfdiId)
    requires k <= |es| < |ws|
  {
    exists j :: 0 <= j < k && LinksTo(ws, es, j, id, cfdi)
  }

  lemma LinkedNext(ws: seq<World>, es: seq<Event>, k: nat, id: SaleId, cfdi: CfdiId)
    requires k < |es| < |ws|
    ensures LinkedBefore(ws, es, k + 1, id, cfdi) <==> LinkedBefore(ws, es, k, id, cfdi) || LinksTo(ws, es, k, id, cfdi)
  {
  }

  lemma StepLinks(w: World, e: Event, id: SaleId, cfdi: CfdiId)
    requires Enabled(w, e)
    ensures (id, cfdi) in Step(w, e).db.links <==>
            || (id, cfdi) in w.db.links
            || (e.Mark? && w.calls[e.call].stage == Issued(Some(cfdi)) && id in w.calls[e.call].rows)
  {
    if e.Mark? {
      LinkExactly(w.db.links, Ids(w.calls[e.call].rows), w.calls[e.call].stage.cfdi, id, cfdi);
    } else {
      assert Step(w, e).db.links == w.db.links;
    }
  }

  /** A sale is linked to a document's row exactly when a call marked it for that document. */
  lemma {:induction false} LinksExactly(ws: seq<World>, es: seq<Event>, k: nat, id: SaleId, cfdi: CfdiId)
    requires Behaviour(ws, es) && k <= |es|
    ensures (id, cfdi) in ws[k].db.links <==> (id, cfdi) in ws[0].db.links || LinkedBefore(ws, es, k, id, cfdi)
  {
    if k == 0 {
    } else {
      LinksExactly(ws, es, k - 1, id, cfdi);
      assert Follows(ws, es, k - 1);
      StepLinks(ws[k - 1], es[k - 1], id, cfdi);
      LinkedNext(ws, es, k - 1, id, cfdi);
    }
  }

  // ---------------------------------------------------------------- each call once

  function Rank(stage: Stage): nat {
    match stage
    case Selected => 0
    case Issued(_) => 1
    case Over => 2
  }

  predicate MovesCall(e: Event, c: CallId) { (e.Document? || e.Mark? || e.Abandon?) && e.call == c }

  lemma StepAdvances(w: World, e: Event, c: CallId)
    requires Enabled(w, e) && c < |w.calls|
    ensures c < |Step(w, e).calls|
    ensures if MovesCall(e, c) then Rank(Step(w, e).calls[c].stage) > Rank(w.calls[c].stage)
            else Step(w, e).calls[c] == w.calls[c]
  {
  }

  lemma {:induction false} CallsAdvance(ws: seq<World>, es: seq<Event>, i: nat, k: nat, c: CallId)
    requires Behaviour(ws, es) && i <= k <= |es| && c < |ws[i].calls|
    ensures c < |ws[k].calls| && Rank(ws[k].calls[c].stage) >= Rank(ws[i].calls[c].stage)
    decreases k - i
  {
    if i == k {
    } else {
      CallsAdvance(ws, es, i, k - 1, c);
      assert Follows(ws, es, k - 1);
      StepAdvances(ws[k - 1], es[k - 1], c);
    }
  }

  /** A call has one answer from stamping and one marking at most, the marking after the answer. */
  lemma OneDocumentPerCall(ws: seq<World>, es: seq<Event>, j: nat, k: nat)
    requires Behaviour(ws, es) && j < k < |es|
    ensures es[j].Document? && es[k].Document? ==> es[j].call != es[k].call
    ensures es[j].Mark? && (es[k].Mark? || es[k].Document?) ==> es[j].call != es[k].call
  {
    assert Follows(ws, es, j) && Follows(ws, es, k);
    if es[j].Document? || es[j].Mark? {
      StepAdvances(ws[j], es[j], es[j].call);
      CallsAdvance(ws, es, j + 1, k, es[j].call);
    }
  }

  // ---------------------------------------------------------------- calls one after another

  /** Between a call's selection and its document no other document comes. */
  predicate Serial(ws: seq<World>, es: seq<Event>)
    requires |es| < |ws|
  {
    forall i, j, k :: 0 <= i < j < k < |es| && IssuesFrom(ws, es, i, k) ==> !Issues(es[j])
  }

  /** With calls one after another only the selection decides. */
  lemma SerialExactly(ws: seq<World>, es: seq<Event>, n: nat)
    requires Behaviour(ws, es) && Serial(ws, es) && n <= |es|
    ensures AtMostOnce(ws[n].db) <==>
            forall i, k, id :: 0 <= i < k < n && IssuesFrom(ws, es, i, k) && id in es[i].rows ==> !Covered(ws[i].db, id)
  {
    EachSaleAtMostOnceExactly(ws, es, n);
    forall i, k, id | 0 <= i < k < n && IssuesFrom(ws, es, i, k) ensures !DocumentedBetween(ws, es, i, k, id) {
      assert !Issues(es[i]);
    }
    if forall k :: 0 <= k < n ==> RepeatsNone(ws, es, k) {
      forall i, k, id | 0 <= i < k < n && IssuesFrom(ws, es, i, k) && id in es[i].rows ensures !Covered(ws[i].db, id) {
        assert RepeatsNone(ws, es, k) && Undocumented(ws, es, i, k, id);
      }
    }
  }

  /** Every document's sales are marked before a call selects again. */
  predicate MarkedInTime(ws: seq<World>, es: seq<Event>)
    requires |es| < |ws|
  {
    forall j, i :: 0 <= j < i < |es| && Issues(es[j]) && Opens(es[i]) ==>
      exists m :: j < m < i && es[m].Mark? && es[m].call == es[j].call
  }

  predicate PeriodsOnly(es: seq<Event>) { forall i :: 0 <= i < |es| ==> !es[i].SelectIds? }

  lemma SelectedIsFresh(ws: seq<World>, es: seq<Event>, i: nat, id: SaleId)
    requires Behaviour(ws, es) && MarkedInTime(ws, es) && PeriodsOnly(es)
    requires i < |es| && Opens(es[i]) && id in es[i].rows
    ensures !Covered(ws[i].db, id)
  {
    assert Follows(ws, es, i);
    assert IsPending(ws[i].db, id, es[i].first, es[i].last);
    PendingIsOpenExactly(ws, es, i, id, es[i].first, es[i].last);
    if Covered(ws[i].db, id) {
      var j :| 0 <= j < i && Documents(ws, es, j, id);
      var m :| j < m < i && es[m].Mark? && es[m].call == es[j].call;
      CallsStay(ws, es, j, m);
      assert Marks(ws, es, m, id);
    }
  }

  /** Period calls one after another, each marking its sales: no sale is in two global CFDIs. */
  lemma EachSaleAtMostOnce(ws: seq<World>, es: seq<Event>, n: nat)
    requires Behaviour(ws, es) && Serial(ws, es) && MarkedInTime(ws, es) && PeriodsOnly(es) && n <= |es|
    ensures AtMostOnce(ws[n].db)
  {
    SerialExactly(ws, es, n);
    forall i, k, id | 0 <= i < k < n && IssuesFrom(ws, es, i, k) && id in es[i].rows ensures !Covered(ws[i].db, id) {
      SelectedIsFresh(ws, es, i, id);
    }
  }

  // ---------------------------------------------------------------- two runs that invoice a sale twice

  lemma Extend(ws: seq<World>, es: seq<Event>, e: Event) returns (ws': seq<World>, es': seq<Event>)
    requires Behaviour(ws, es) && Enabled(ws[|es|], e)
    ensures Behaviour(ws', es') && es' == es + [e] && ws' == ws + [Step(ws[|es|], e)]
  {
    es' := es + [e];
    ws' := ws + [Step(ws[|es|], e)];
    forall k | 0 <= k < |es'| ensures Follows(ws', es', k) {
      assert k < |es| ==> Follows(ws, es, k);
    }
  }

  const SALE: Sale := Sale(B, 1, 0, false)
  const SHOP: Db := Db(map[0 := SALE], {}, [], {})

  lemma OneSaleIsBatch(db: Db)
    requires db == SHOP
    ensures IsBatch(db, 1, 1, [0])
  {
    assert Pending(db, 1, 1) == {0};
  }

  /** Two calls of one period overlap: both select the sale, both issue, and both mark it. */
  lemma OverlappingCallsInvoiceTwice() returns (ws: seq<World>, es: seq<Event>)
    ensures Behaviour(ws, es) && MarkedAll(ws[|es|]) && !AtMostOnce(ws[|es|].db)
  {
    ws, es := BothSelect();
    ws, es := Extend(ws, es, Document(0, Stored(Some(7))));
    ws, es := Extend(ws, es, Document(1, Stored(Some(8))));
    ghost var w := ws[|es|];
    assert 0 in w.db.contents[0] && 0 in w.db.contents[1];
    assert !AtMostOnce(w.db);
    ws, es := Extend(ws, es, Mark(0));
    ws, es := Extend(ws, es, Mark(1));
  }

  predicate MarkedAll(w: World) {
    && w.calls != []
    && forall c :: 0 <= c < |w.calls| ==>
         w.calls[c].stage.Over? && forall id :: id in w.calls[c].rows ==> LeftB(w, id)
  }

  lemma BothSelect() returns (ws: seq<World>, es: seq<Event>)
    ensures Behaviour(ws, es)
    ensures ws[|es|] == World(SHOP, [Call([0], Selected), Call([0], Selected)])
  {
    OneSaleIsBatch(SHOP);
    ws, es := [World(SHOP, [])], [];
    ws, es := Extend(ws, es, SelectPeriod(1, 1, [0]));
    ws, es := Extend(ws, es, SelectPeriod(1, 1, [0]));
  }

  /** A sale in a global CFDI is given one of its own. */
  lemma OwnAfterGlobal() returns (ws: seq<World>, es: seq<Event>)
    ensures Behaviour(ws, es) && AtMostOnce(ws[|es|].db) && !InvoicedOnce(ws[|es|].db)
  {
    OneSaleIsBatch(SHOP);
    ws, es := [World(SHOP, [])], [];
    ws, es := Extend(ws, es, SelectPeriod(1, 1, [0]));
    ws, es := Extend(ws, es, Document(0, Stored(Some(7))));
    ws, es := Extend(ws, es, Mark(0));
    ws, es := Extend(ws, es, OwnCfdi(0, true));
    ghost var db := ws[|es|].db;
    assert 0 in db.contents[0] && 0 in db.own;
  }
}
