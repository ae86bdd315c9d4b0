/**
 The CSV writer of backend/modules/fiscal/cfdi_sync_service.py and a reader for it that
 follows section 2 of RFC 4180, taking LF as well as CRLF for a line break.
 */
module CsvReport {
  import opened Text

  const TAB: char := '\t'
  const LF: char := '\n'
  const CR: char := '\r'
  const DQUOTE: char := '"'

  // ---------------------------------------------------------------- the writer

  /** `[\x00-\x08\x0B\x0C\x0E-\x1F]` */
  predicate Control(c: char) { c < ' ' && c != TAB && c != LF && c != CR }

  function Strip(s: string): (r: string)
    ensures forall c :: c in r ==> !Control(c)
  {
    if s == "" then "" else (if Control(s[0]) then "" else [s[0]]) + Strip(s[1..])
  }

  predicate Formula(c: char) { c in {'=', '+', '-', '@', TAB, CR, LF} }

  /** A tab in front of whatever a spreadsheet could take for a formula. */
  function Guard(s: string): string {
    if s != "" && Formula(s[0]) then [TAB] + s else s
  }

  predicate NeedsQuotes(s: string) { ',' in s || DQUOTE in s || LF in s || TAB in s }

  function DoubleQuotes(s: string): string { ReplaceAll(s, [DQUOTE], [DQUOTE, DQUOTE]) }

  function Quote(s: string): string {
    var d := DoubleQuotes(s);
    if NeedsQuotes(d) then [DQUOTE] + d + [DQUOTE] else d
  }

  /** The cell a field becomes, before quoting. */
  function Cell(field: string): string { Guard(Strip(field)) }

  function Escape(field: string): string { Quote(Cell(field)) }

  function Row(fields: seq<string>): string
    requires fields != []
  {
    Escape(fields[0]) + if |fields| == 1 then [LF] else [','] + Row(fields[1..])
  }

  predicate NonEmptyRows(rows: seq<seq<string>>) { forall k :: 0 <= k < |rows| ==> rows[k] != [] }

  function Rows(rows: seq<seq<string>>): string
    requires NonEmptyRows(rows)
  {
    if rows == [] then "" else Row(rows[0]) + Rows(rows[1..])
  }

  /** The nested `escape`, which rewrites `s` in place step by step. */
  method EscapeField(val: string) returns (s: string)
    ensures s == Escape(val)
  {
    s := Strip(val);
    if s != "" && Formula(s[0]) {
      s := [TAB] + s;
    }
    s := ReplaceAll(s, [DQUOTE], [DQUOTE, DQUOTE]);
    if ',' in s || DQUOTE in s || LF in s || TAB in s {
      s := [DQUOTE] + s + [DQUOTE];
    }
  }

  /** The loop of `generate_csv_report`: each row is joined with commas and appended to the file. */
  method WriteReport(header: string, rows: seq<seq<string>>) returns (file: string)
    requires NonEmptyRows(rows)
    ensures file == header + Rows(rows)
  {
    file := header;
    for k := 0 to |rows|
      invariant file + Rows(rows[k..]) == header + Rows(rows)
    {
      var line := EscapeField(rows[k][0]);
      for j := 1 to |rows[k]|
        invariant line + (if j == |rows[k]| then [LF] else [','] + Row(rows[k][j..])) == Row(rows[k])
      {
        var cell := EscapeField(rows[k][j]);
        var rest := rows[k][j..];
        assert rest[1..] == rows[k][j + 1..];
        Regroup(line, [','] + cell, if j + 1 == |rows[k]| then [LF] else [','] + Row(rows[k][j + 1..]));
        Regroup([','], cell, if j + 1 == |rows[k]| then [LF] else [','] + Row(rows[k][j + 1..]));
        line := line + ([','] + cell);
      }
      assert rows[k..][1..] == rows[k + 1..];
      Regroup(file, line + [LF], Rows(rows[k + 1..]));
      file := file + (line + [LF]);
    }
    assert rows[|rows|..] == [];
    assert file + "" == file;
  }

  // ---------------------------------------------------------------- the reader

  /** Length of the line break at the head, 0 when there is none. */
  function LineBreak(s: string): nat {
    if s != "" && s[0] == LF then 1
    else if |s| > 1 && s[0] == CR && s[1] == LF then 2
    else 0
  }

  function ReadBare(s: string): Option<(string, string)> {
    if s == "" || s[0] == ',' || LineBreak(s) > 0 then Some(("", s))
    else if s[0] == DQUOTE then None
    else match ReadBare(s[1..])
      case None => None
      case Some((field, rest)) => Some(([s[0]] + field, rest))
  }

  function ReadQuoted(s: string): Option<(string, string)>
    decreases |s|
  {
    if s == "" then None
    else if s[0] == DQUOTE && !(|s| > 1 && s[1] == DQUOTE) then Some(("", s[1..]))
    else match ReadQuoted(if s[0] == DQUOTE then s[2..] else s[1..])
      case None => None
      case Some((field, rest)) => Some(([s[0]] + field, rest))
  }

  function ReadField(s: string): Option<(string, string)> {
    if s != "" && s[0] == DQUOTE then ReadQuoted(s[1..]) else ReadBare(s)
  }

  lemma {:induction false} ReadBareShortens(s: string)
    ensures ReadBare(s).Some? ==> |ReadBare(s).value.1| <= |s|
  {
    if s == "" {
    } else {
      ReadBareShortens(s[1..]);
    }
  }

  lemma {:induction false} ReadQuotedShortens(s: string)
    ensures ReadQuoted(s).Some? ==> |ReadQuoted(s).value.1| < |s|
    decreases |s|
  {
    if s == "" {
    } else {
      ReadQuotedShortens(s[1..]);
      if |s| > 1 {
        ReadQuotedShortens(s[2..]);
      }
    }
  }

  lemma ReadFieldShortens(s: string)
    ensures ReadField(s).Some? ==> |ReadField(s).value.1| <= |s|
  {
    if s != "" {
      ReadQuotedShortens(s[1..]);
    }
    ReadBareShortens(s);
  }

  /** One record: its cells and the text after its line break. */
  function ReadRecord(s: string): (r: Option<(seq<string>, string)>)
    ensures r.Some? && s != "" ==> |r.value.1| < |s|
    decreases |s|
  {
    ReadFieldShortens(s);
    match ReadField(s)
    case None => None
    case Some((field, rest)) =>
      if rest == "" then Some(([field], ""))
      else if rest[0] == ',' then
        if rest[1..] == "" then Some(([field, ""], ""))
        else (match ReadRecord(rest[1..])
          case None => None
          case Some((more, after)) => Some(([field] + more, after)))
      else if LineBreak(rest) > 0 then Some(([field], rest[LineBreak(rest)..]))
      else None
  }

  function ReadAll(s: string): Option<seq<seq<string>>>
    decreases |s|
  {
    if s == "" then Some([])
    else match ReadRecord(s)
      case None => None
      case Some((record, rest)) =>
        match ReadAll(rest)
        case None => None
        case Some(more) => Some([record] + more)
  }

  /** The reader of a guarded cell drops one leading tab. */
  function Unguard(cell: string): string {
    if cell != "" && cell[0] == TAB then cell[1..] else cell
  }

  function Map(f: string -> string, xs: seq<string>): (r: seq<string>)
    ensures |r| == |xs| && forall k :: 0 <= k < |xs| ==> r[k] == f(xs[k])
  {
    if xs == [] then [] else [f(xs[0])] + Map(f, xs[1..])
  }

  function MapRows(f: string -> string, rows: seq<seq<string>>): (r: seq<seq<string>>)
    ensures |r| == |rows| && forall k :: 0 <= k < |rows| ==> r[k] == Map(f, rows[k])
  {
    if rows == [] then [] else [Map(f, rows[0])] + MapRows(f, rows[1..])
  }

  // ---------------------------------------------------------------- one field

  /** Dropping the guard tab gives back the stripped field, and no cell reads as a formula. */
  lemma GuardIsUndone(field: string)
    ensures Unguard(Cell(field)) == Strip(field)
    ensures Cell(field) != "" ==> Cell(field)[0] !in {'=', '+', '-', '@', CR, LF}
  {
  }

  /** Written bare although it ends in CR: the one kind of cell a line break can swallow part of. */
  predicate EndsInBareCR(field: string) {
    var c := Cell(field);
    !NeedsQuotes(c) && c != "" && c[|c| - 1] == CR
  }

  lemma {:induction false} DoubleQuotesFacts(s: string)
    ensures DQUOTE !in s ==> DoubleQuotes(s) == s
    ensures NeedsQuotes(DoubleQuotes(s)) <==> NeedsQuotes(s)
    ensures s != "" ==>
              DoubleQuotes(s) == (if s[0] == DQUOTE then [DQUOTE, DQUOTE] else [s[0]]) + DoubleQuotes(s[1..])
  {
    if s == "" {
    } else {
      PrefixCons([DQUOTE], s);
      DoubleQuotesFacts(s[1..]);
      assert s == [s[0]] + s[1..];
    }
  }

  lemma {:induction false} BareReads(cell: string, tail: string)
    requires !NeedsQuotes(cell)
    requires tail != "" && (tail[0] == ',' || tail[0] == LF)
    ensures if cell != "" && cell[|cell| - 1] == CR && tail[0] == LF
            then ReadBare(cell + tail) == Some((cell[..|cell| - 1], [CR] + tail))
            else ReadBare(cell + tail) == Some((cell, tail))
  {
    var s := cell + tail;
    if cell == "" {
      assert s == tail;
    } else {
      assert s[0] == cell[0] && cell[0] in cell;
      assert s[1..] == cell[1..] + tail;
      assert forall c :: c in cell[1..] ==> c in cell;
      BareReads(cell[1..], tail);
      if |cell| == 1 {
        assert s[1..] == tail && cell[..0] == "";
        assert cell == [cell[0]] && [cell[0]] + "" == cell;
        assert cell[0] == CR ==> s == [CR] + tail;
        assert s[1] == tail[0];
      } else {
        assert s[1] == cell[1] && cell[1] in cell;
        assert cell == [cell[0]] + cell[1..] && cell[1..][|cell| - 2] == cell[|cell| - 1];
        assert cell[..|cell| - 1] == [cell[0]] + cell[1..][..|cell| - 2];
      }
    }
  }

  /** One character of a quoted field, doubled if it is a quote. */
  lemma QuotedStep(c: char, t: string, cell: string, tail: string)
    requires ReadQuoted(t) == Some((cell, tail))
    ensures ReadQuoted((if c == DQUOTE then [DQUOTE, DQUOTE] else [c]) + t) == Some(([c] + cell, tail))
  {
    if c == DQUOTE {
      assert ([DQUOTE, DQUOTE] + t)[2..] == t;
    } else {
      assert ([c] + t)[1..] == t;
    }
  }

  lemma {:induction false} QuotedReads(cell: string, tail: string)
    requires tail == "" || tail[0] != DQUOTE
    ensures ReadQuoted(DoubleQuotes(cell) + ([DQUOTE] + tail)) == Some((cell, tail))
  {
    if cell == "" {
      assert DoubleQuotes(cell) + ([DQUOTE] + tail) == [DQUOTE] + tail;
      assert ([DQUOTE] + tail)[1..] == tail;
    } else {
      var head := if cell[0] == DQUOTE then [DQUOTE, DQUOTE] else [cell[0]];
      DoubleQuotesFacts(cell);
      QuotedReads(cell[1..], tail);
      Regroup(head, DoubleQuotes(cell[1..]), [DQUOTE] + tail);
      QuotedStep(cell[0], DoubleQuotes(cell[1..]) + ([DQUOTE] + tail), cell[1..], tail);
      assert cell == [cell[0]] + cell[1..];
    }
  }

  lemma FieldReads(field: string, tail: string)
    requires tail != "" && (tail[0] == ',' || tail[0] == LF)
    ensures var cell := Cell(field);
            if EndsInBareCR(field) && tail[0] == LF
            then ReadField(Escape(field) + tail) == Some((cell[..|cell| - 1], [CR] + tail))
            else ReadField(Escape(field) + tail) == Some((cell, tail))
  {
    var cell := Cell(field);
    DoubleQuotesFacts(cell);
    if NeedsQuotes(cell) {
      QuotedFieldReads(cell, tail);
    } else {
      BareFieldReads(cell, tail);
    }
  }

  lemma QuotedFieldReads(cell: string, tail: string)
    requires tail == "" || tail[0] != DQUOTE
    ensures ReadField(([DQUOTE] + DoubleQuotes(cell) + [DQUOTE]) + tail) == Some((cell, tail))
  {
    var s := ([DQUOTE] + DoubleQuotes(cell) + [DQUOTE]) + tail;
    var t := DoubleQuotes(cell) + ([DQUOTE] + tail);
    assert s == [DQUOTE] + t;
    assert s[1..] == t;
    QuotedReads(cell, tail);
  }

  lemma BareFieldReads(cell: string, tail: string)
    requires !NeedsQuotes(cell)
    requires tail != "" && (tail[0] == ',' || tail[0] == LF)
    ensures ReadField(cell + tail) == ReadBare(cell + tail)
    ensures if cell != "" && cell[|cell| - 1] == CR && tail[0] == LF
            then ReadBare(cell + tail) == Some((cell[..|cell| - 1], [CR] + tail))
            else ReadBare(cell + tail) == Some((cell, tail))
  {
    var s := cell + tail;
    assert cell != "" ==> cell[0] in cell && s[0] == cell[0];
    assert cell == "" ==> s == tail;
    BareReads(cell, tail);
  }

  // ---------------------------------------------------------------- rows and files

  function Last<T>(xs: seq<T>): T
    requires xs != []
  {
    xs[|xs| - 1]
  }

  predicate RowReadsBack(fields: seq<string>, after: string)
    requires fields != []
  {
    var r := ReadRecord(Row(fields) + after);
    && r.Some? && r.value.1 == after && |r.value.0| == |fields|
    && (r.value.0 == Map(Cell, fields) <==> !EndsInBareCR(Last(fields)))
  }

  /** The carriage return joins the line break, and the record has lost it. */
  lemma CRJoinsLineBreak(s: string, cell: string, after: string)
    requires cell != "" && ReadField(s) == Some((cell[..|cell| - 1], [CR] + ([LF] + after)))
    ensures ReadRecord(s) == Some(([cell[..|cell| - 1]], after)) && [cell[..|cell| - 1]] != [cell]
  {
    var rest := [CR] + ([LF] + after);
    assert rest[0] == CR && rest[1] == LF && rest[2..] == after;
    assert |[cell[..|cell| - 1]][0]| != |[cell][0]|;
  }

  lemma LFEndsRecord(s: string, cell: string, after: string)
    requires ReadField(s) == Some((cell, [LF] + after))
    ensures ReadRecord(s) == Some(([cell], after))
  {
    assert ([LF] + after)[1..] == after;
  }

  lemma LastFieldReads(field: string, after: string)
    ensures RowReadsBack([field], after)
  {
    var cell, tail, fields := Cell(field), [LF] + after, [field];
    Regroup(Escape(field), [LF], after);
    assert Row(fields) + after == Escape(field) + tail;
    FieldReads(field, tail);
    assert Map(Cell, fields) == [cell];
    if EndsInBareCR(field) {
      CRJoinsLineBreak(Escape(field) + tail, cell, after);
    } else {
      LFEndsRecord(Escape(field) + tail, cell, after);
    }
  }

  lemma ReadPastComma(s: string, cell: string, next: string)
    requires ReadField(s) == Some((cell, [','] + next)) && next != "" && ReadRecord(next).Some?
    ensures ReadRecord(s) == Some(([cell] + ReadRecord(next).value.0, ReadRecord(next).value.1))
  {
  }

  lemma NextFieldReads(fields: seq<string>, after: string)
    requires |fields| > 1 && RowReadsBack(fields[1..], after)
    ensures RowReadsBack(fields, after)
  {
    var next := Row(fields[1..]) + after;
    RowCons(fields, after);
    CommaFieldReads(fields[0], next);
    RowNotEmpty(fields[1..]);
    ReadPastComma(Row(fields) + after, Cell(fields[0]), next);
    ConsEquals(Cell(fields[0]), ReadRecord(next).value.0, Map(Cell, fields[1..]));
  }

  lemma RowCons(fields: seq<string>, after: string)
    requires |fields| > 1
    ensures Row(fields) + after == Escape(fields[0]) + ([','] + (Row(fields[1..]) + after))
  {
  }

  lemma CommaFieldReads(field: string, next: string)
    ensures ReadField(Escape(field) + ([','] + next)) == Some((Cell(field), [','] + next))
  {
    FieldReads(field, [','] + next);
  }

  lemma ConsEquals<T>(x: T, a: seq<T>, b: seq<T>)
    ensures [x] + a == [x] + b <==> a == b
  {
    assert ([x] + a)[1..] == a && ([x] + b)[1..] == b;
  }

  /** A written row reads back cell by cell exactly when its last field does not end in a bare CR. */
  lemma {:induction false} RowReads(fields: seq<string>, after: string)
    requires fields != []
    ensures RowReadsBack(fields, after)
    decreases |fields|
  {
    if |fields| == 1 {
      LastFieldReads(fields[0], after);
      assert fields == [fields[0]];
    } else {
      RowReads(fields[1..], after);
      NextFieldReads(fields, after);
    }
  }

  lemma RowNotEmpty(fields: seq<string>)
    requires fields != []
    ensures Row(fields) != ""
    decreases |fields|
  {
  }

  predicate SafeRows(rows: seq<seq<string>>)
    requires NonEmptyRows(rows)
  {
    forall k :: 0 <= k < |rows| ==> !EndsInBareCR(Last(rows[k]))
  }

  lemma SafeRowsCons(row: seq<string>, rest: seq<seq<string>>)
    requires row != [] && NonEmptyRows(rest)
    ensures NonEmptyRows([row] + rest)
    ensures SafeRows([row] + rest) <==> !EndsInBareCR(Last(row)) && SafeRows(rest)
  {
    var rows := [row] + rest;
    assert rows[0] == row;
    if SafeRows(rows) {
      forall k | 0 <= k < |rest| ensures !EndsInBareCR(Last(rest[k])) {
        assert rest[k] == rows[k + 1];
      }
    }
  }

  lemma HeadsEqual<T>(x: T, a: seq<T>, y: T, b: seq<T>)
    ensures [x] + a == [y] + b <==> x == y && a == b
  {
    assert ([x] + a)[0] == x && ([y] + b)[0] == y;
    assert ([x] + a)[1..] == a && ([y] + b)[1..] == b;
  }

  lemma RowThenRows(row: seq<string>, rest: seq<seq<string>>)
    requires row != [] && NonEmptyRows(rest) && ReadAll(Rows(rest)).Some?
    ensures ReadRecord(Row(row) + Rows(rest)).Some?
    ensures ReadAll(Row(row) + Rows(rest)) ==
            Some([ReadRecord(Row(row) + Rows(rest)).value.0] + ReadAll(Rows(rest)).value)
  {
    RowReads(row, Rows(rest));
    RowNotEmpty(row);
  }

  /** The same for the whole body of the file. */
  lemma {:induction false} ReportReadsBack(rows: seq<seq<string>>)
    requires NonEmptyRows(rows)
    ensures ReadAll(Rows(rows)).Some?
    ensures ReadAll(Rows(rows)).value == MapRows(Cell, rows) <==> SafeRows(rows)
  {
    if rows == [] {
    } else {
      var row, rest := rows[0], rows[1..];
      assert rows == [row] + rest;
      ReportReadsBack(rest);
      RowThenRows(row, rest);
      RowReads(row, Rows(rest));
      SafeRowsCons(row, rest);
      HeadsEqual(ReadRecord(Rows(rows)).value.0, ReadAll(Rows(rest)).value, Map(Cell, row), MapRows(Cell, rest));
    }
  }

  /** From the file back to the stripped fields, in one statement. */
  lemma FieldsComeBack(rows: seq<seq<string>>)
    requires NonEmptyRows(rows) && SafeRows(rows)
    ensures ReadAll(Rows(rows)).Some?
    ensures MapRows(Unguard, ReadAll(Rows(rows)).value) == MapRows(Strip, rows)
  {
    ReportReadsBack(rows);
    var cells := MapRows(Cell, rows);
    forall k | 0 <= k < |rows| ensures Map(Unguard, cells[k]) == Map(Strip, rows[k]) {
      forall j | 0 <= j < |rows[k]| ensures Map(Unguard, cells[k])[j] == Map(Strip, rows[k])[j] {
        GuardIsUndone(rows[k][j]);
      }
    }
  }

  /** A last field "ok" and a carriage return reads back as "ok". */
  lemma BareCRIsLost(cell: string, rows: seq<seq<string>>)
    requires cell == ['o', 'k', CR] && rows == [[cell]]
    ensures Cell(cell) == cell && ReadAll(Rows(rows)) == Some([["ok"]])
  {
    PlainCell(cell);
    DoubleQuotesFacts(cell);
    FieldReads(cell, [LF]);
    assert cell[..2] == "ok";
    assert [CR] + [LF] == [CR] + ([LF] + "");
    CRJoinsLineBreak(cell + [LF], cell, "");
    assert rows[1..] == [];
    assert Row([cell]) == cell + [LF];
    var s := cell + [LF];
    assert Rows(rows) == s + "" == s;
    assert ReadRecord(s) == Some((["ok"], ""));
    assert [["ok"]] + [] == [["ok"]];
  }

  lemma PlainCell(cell: string)
    requires cell == ['o', 'k', CR]
    ensures Cell(cell) == cell && !NeedsQuotes(cell)
  {
    assert cell[1..] == ['k', CR] && cell[1..][1..] == [CR] && [CR][1..] == "";
    assert Strip([CR]) == [CR];
    assert Strip(['k', CR]) == ['k'] + [CR];
  }

  // ---------------------------------------------------------------- the three rewritings, each on its own

  /** Stripping works character by character and takes exactly the control codes other than tab, LF and CR. */
  lemma {:induction false} StripExactly(a: string, b: string, c: char)
    ensures Strip(a + b) == Strip(a) + Strip(b)
    ensures Strip([c]) == var k := c as int; if k <= 8 || k == 11 || k == 12 || 14 <= k <= 31 then "" else [c]
  {
    assert [c][1..] == "";
    if a == "" {
      assert a + b == b;
    } else {
      assert (a + b)[1..] == a[1..] + b;
      StripExactly(a[1..], b, c);
    }
  }

  /** A cell is guarded exactly when its field would open like a formula. */
  lemma GuardExactly(field: string)
    ensures Cell(field) != Strip(field) <==>
            Strip(field) != "" && Strip(field)[0] in {'=', '+', '-', '@', TAB, CR, LF}
  {
    var s := Strip(field);
    assert |[TAB] + s| == |s| + 1;
  }

  /** A cell is written in quotes exactly when it holds a comma, a quote, a line feed or a tab; otherwise as it stands. */
  lemma QuoteExactly(field: string)
    ensures var c := Cell(field);
            var quoted := ',' in c || DQUOTE in c || LF in c || TAB in c;
            && (Escape(field) != "" && Escape(field)[0] == DQUOTE <==> quoted)
            && (!quoted ==> Escape(field) == c)
  {
    var c := Cell(field);
    DoubleQuotesFacts(c);
    if c != "" {
      assert c[0] in c;
    }
  }
}
