/**
 The rewritten query as the server reads it, against the named query it came from.  The server
 takes `$` and digits for a parameter, quoted literals and everything else as they stand.
 */
module SqlRewriterServer {
  import opened Text
  import opened SqlRewriter
  import opened SqlRewriterRestore
  import opened SqlRewriterMeaning

  /** Python's `\w` matches the decimal digits. */
  ghost predicate DigitsAreWord(w: char -> bool) { forall c :: IsDigit(c) ==> w(c) }

  // ---------------------------------------------------------------- reading a positional text

  datatype Positioned = Verbatim(text: string) | Ref(k: nat)

  function DigitRun(s: string): (n: nat)
    ensures n <= |s| && (forall k :: 0 <= k < n ==> IsDigit(s[k])) && (n < |s| ==> !IsDigit(s[n]))
  {
    if s != "" && IsDigit(s[0]) then 1 + DigitRun(s[1..]) else 0
  }

  predicate StartsRef(t: string) { |t| > 1 && t[0] == '$' && IsDigit(t[1]) }

  function Read(t: string): seq<Positioned>
    decreases |t|
  {
    if t == "" then []
    else if StartsLiteral(t) then [Verbatim(t[..LiteralLength(t)])] + Read(t[LiteralLength(t)..])
    else if CAST <= t then [Verbatim(CAST)] + Read(t[2..])
    else if StartsRef(t) then
      var n := DigitRun(t[1..]);
      [Ref(Value(t[1..][..n]))] + Read(t[1..][n..])
    else [Verbatim([t[0]])] + Read(t[1..])
  }

  // ---------------------------------------------------------------- evaluation

  /** A query with its values in place. */
  datatype Piece<V> = Raw(text: string) | Bound(value: V)

  predicate RefInRange(p: Positioned, n: nat) { p.Ref? ==> 1 <= p.k <= n }

  predicate InRange(ps: seq<Positioned>, n: nat) { forall k :: 0 <= k < |ps| ==> RefInRange(ps[k], n) }

  function PieceOf<V>(p: Positioned, args: seq<V>): Piece<V>
    requires RefInRange(p, |args|)
  {
    match p
    case Verbatim(text) => Raw(text)
    case Ref(k) => Bound(args[k - 1])
  }

  function EvaluatePositional<V>(ps: seq<Positioned>, args: seq<V>): (r: seq<Piece<V>>)
    requires InRange(ps, |args|)
    ensures |r| == |ps| && forall k :: 0 <= k < |ps| ==> r[k] == PieceOf(ps[k], args)
  {
    if ps == [] then [] else [PieceOf(ps[0], args)] + EvaluatePositional(ps[1..], args)
  }

  function Verbatims(tok: Token): string
    requires !tok.Named?
  {
    match tok
    case Plain(c) => [c]
    case CastOp => CAST
    case Literal(text) => text
  }

  /** The named query with the dictionary's values in place. */
  function EvaluateNamed<V>(toks: seq<Token>, params: map<string, V>): seq<Piece<V>>
    requires forall x :: x in Names(toks) ==> x in params
  {
    if toks == [] then []
    else if toks[0].Named? then
      assert Names(toks)[0] == toks[0].name;
      assert forall x :: x in Names(toks[1..]) ==> x in Names(toks);
      [Bound(params[toks[0].name])] + EvaluateNamed(toks[1..], params)
    else
      assert Names(toks[1..]) == Names(toks);
      [Raw(Verbatims(toks[0]))] + EvaluateNamed(toks[1..], params)
  }

  // ---------------------------------------------------------------- what the reading should find

  /** One piece a token, numbers as the scan gives them. */
  function Numbered(toks: seq<Token>, order: seq<string>): seq<Positioned> {
    if toks == [] then []
    else if toks[0].Named? then
      var o := Meet(order, toks[0].name);
      [Ref(IndexOf(o, toks[0].name) + 1)] + Numbered(toks[1..], o)
    else [Verbatim(Verbatims(toks[0]))] + Numbered(toks[1..], order)
  }

  lemma PrefixKeeps(a: seq<string>, b: seq<string>, c: seq<string>, k: nat)
    requires a <= b <= c && k < |a|
    ensures k < |c| && c[k] == a[k]
  {
  }

  lemma PieceCons<V>(p: Positioned, ps: seq<Positioned>, args: seq<V>)
    requires InRange(ps, |args|) && RefInRange(p, |args|)
    ensures InRange([p] + ps, |args|)
    ensures EvaluatePositional([p] + ps, args) == [PieceOf(p, args)] + EvaluatePositional(ps, args)
  {
    assert ([p] + ps)[1..] == ps;
  }

  /** Each number stays right while the parameter list grows. */
  lemma {:induction false} NumbersResolve<V>(toks: seq<Token>, order: seq<string>, final: seq<string>,
                                            params: map<string, V>, args: seq<V>)
    requires ScanOrder(toks, order) <= final
    requires forall x :: x in Names(toks) ==> x in params
    requires |args| == |final|
    requires forall k :: 0 <= k < |final| ==> final[k] in params && args[k] == params[final[k]]
    ensures InRange(Numbered(toks, order), |args|)
    ensures EvaluatePositional(Numbered(toks, order), args) == EvaluateNamed(toks, params)
  {
    if toks == [] {
    } else {
      var rest := toks[1..];
      if toks[0].Named? {
        var x := toks[0].name;
        var o := Meet(order, x);
        assert Names(toks) == [x] + Names(rest);
        NumbersResolve(rest, o, final, params, args);
        PrefixKeeps(o, ScanOrder(rest, o), final, IndexOf(o, x));
        PieceCons(Ref(IndexOf(o, x) + 1), Numbered(rest, o), args);
      } else {
        assert Names(toks) == Names(rest);
        NumbersResolve(rest, order, final, params, args);
        PieceCons(Verbatim(Verbatims(toks[0])), Numbered(rest, order), args);
      }
    }
  }

  // ---------------------------------------------------------------- numbers that were there before

  predicate StrayHead(toks: seq<Token>) {
    |toks| > 1 && toks[0] == Plain('$') && toks[1].Plain? && IsDigit(toks[1].c)
  }

  /** Outside literals the query already holds a `$` followed by a digit. */
  predicate HasStray(toks: seq<Token>) { toks != [] && (StrayHead(toks) || HasStray(toks[1..])) }

  /** Somewhere one reading has a parameter where the other has text. */
  predicate Clash(a: seq<Positioned>, b: seq<Positioned>) {
    exists k :: 0 <= k < |a| && k < |b| && a[k].Ref? && b[k].Verbatim?
  }

  lemma ClashLater(p: Positioned, a: seq<Positioned>, b: seq<Positioned>)
    requires Clash(a, b)
    ensures Clash([p] + a, [p] + b)
  {
    var k :| 0 <= k < |a| && k < |b| && a[k].Ref? && b[k].Verbatim?;
    assert ([p] + a)[k + 1] == a[k] && ([p] + b)[k + 1] == b[k];
  }

  // ---------------------------------------------------------------- token boundaries in the written text

  /** The written text starts as the query does, a name with `$`. */
  lemma FirstChar(s: string, w: char -> bool, order: seq<string>)
    ensures var t := ScanText(Lex(s, w), order);
            && (t == "" <==> s == "")
            && (s != "" ==> t[0] == s[0] || (t[0] == '$' && s[0] == ':'))
  {
    if s != "" {
      var toks := Lex(s, w);
      if toks[0].Named? {
        assert Positional(order, toks[0].name)[0] == '$';
      }
    }
  }

  lemma PositionalHasNoQuote(order: seq<string>, x: string)
    ensures QUOTE !in Positional(order, x)
  {
    forall c | c in Positional(order, x) ensures c != QUOTE {
      if c != '$' {
        assert c in Dec(IndexOf(Meet(order, x), x) + 1);
        assert IsDigit(c);
      }
    }
  }

  lemma {:induction false} ScanKeepsQuotes(s: string, w: char -> bool, order: seq<string>)
    requires WordClass(w)
    ensures QUOTE in ScanText(Lex(s, w), order) <==> QUOTE in s
    decreases |s|
  {
    if s == "" {
    } else if StartsLiteral(s) {
      assert s[0] in s && s[0] in ScanText(Lex(s, w), order);
    } else if CAST <= s {
      assert s == CAST + s[2..];
      ScanKeepsQuotes(s[2..], w, order);
    } else if StartsName(s, w) {
      var x := NameAt(s, w);
      assert s == ([':'] + x) + s[1 + |x|..];
      ScanKeepsQuotes(s[1 + |x|..], w, Meet(order, x));
      PositionalHasNoQuote(order, x);
    } else {
      assert s == [s[0]] + s[1..];
      ScanKeepsQuotes(s[1..], w, order);
    }
  }

  /** The only quotes a literal's end depends on: one right after it, and any behind that one. */
  predicate SameQuotes(v: string, v': string) {
    && ((v != "" && v[0] == QUOTE) <==> (v' != "" && v'[0] == QUOTE))
    && (v != "" && v' != "" && v[0] == QUOTE ==> (QUOTE in v[1..] <==> QUOTE in v'[1..]))
  }

  lemma {:induction false} TailNeedsQuote(t: string)
    ensures LiteralTail(t).None? <==> QUOTE !in t
    decreases |t|
  {
    if t == "" {
    } else if t[0] != QUOTE {
      assert t == [t[0]] + t[1..];
      TailNeedsQuote(t[1..]);
    } else {
      assert t[0] in t;
    }
  }

  lemma TailDrops(u: string, v: string, k: nat)
    requires k <= |u|
    ensures (u + v)[k..] == u[k..] + v
  {
  }

  lemma TailCloses(v: string)
    ensures LiteralTail([QUOTE] + v) == Some(1) <==> !(v != "" && v[0] == QUOTE && QUOTE in v[1..])
  {
    var t := [QUOTE] + v;
    if v != "" && v[0] == QUOTE {
      assert t[2..] == v[1..];
      TailNeedsQuote(v[1..]);
    }
  }

  /** A literal ends where it did when what follows keeps these quotes. */
  lemma {:induction false} TailStays(u: string, v: string, v': string)
    requires u != "" && LiteralTail(u + v) == Some(|u|) && SameQuotes(v, v')
    ensures LiteralTail(u + v') == Some(|u|)
    decreases |u|
  {
    if |u| == 1 {
      assert u == [(u + v)[0]] == [QUOTE];
      TailCloses(v);
      TailCloses(v');
    } else if u[0] != QUOTE {
      TailDrops(u, v, 1);
      TailDrops(u, v', 1);
      TailStays(u[1..], v, v');
    } else {
      TailDrops(u, v, 2);
      TailDrops(u, v', 2);
      TailStays(u[2..], v, v');
    }
  }

  lemma ScanSameQuotes(s: string, w: char -> bool, order: seq<string>)
    requires WordClass(w)
    ensures SameQuotes(s, ScanText(Lex(s, w), order))
  {
    FirstChar(s, w, order);
    if s != "" && s[0] == QUOTE {
      var toks := Lex(s, w);
      if StartsLiteral(s) {
        var e := LiteralLength(s);
        assert s[1..][e - 2] == QUOTE;
        assert ScanText(toks, order)[1..][e - 2] == s[..e][e - 1] == QUOTE;
      } else {
        assert ScanText(toks, order)[1..] == ScanText(Lex(s[1..], w), order);
        ScanKeepsQuotes(s[1..], w, order);
      }
    }
  }

  // ---------------------------------------------------------------- one token at a time

  /** The written text of `s` opens with this piece, and `u` is left. */
  predicate Opens(t: string, p: Positioned, u: string) { Read(t) == [p] + Read(u) }

  lemma LiteralStays(text: string, v: string, v': string)
    requires StartsLiteral(text + v) && LiteralLength(text + v) == |text| && SameQuotes(v, v')
    ensures StartsLiteral(text + v') && LiteralLength(text + v') == |text|
  {
    TailDrops(text, v, 1);
    TailDrops(text, v', 1);
    TailStays(text[1..], v, v');
  }

  lemma LiteralTextOpens(text: string, u: string)
    requires StartsLiteral(text + u) && LiteralLength(text + u) == |text|
    ensures Opens(text + u, Verbatim(text), u)
  {
    assert (text + u)[..|text|] == text && (text + u)[|text|..] == u;
  }

  lemma LiteralOpens(s: string, w: char -> bool, order: seq<string>)
    requires WordClass(w) && StartsLiteral(s)
    ensures var e := LiteralLength(s);
            Opens(ScanText(Lex(s, w), order), Verbatim(s[..e]), ScanText(Lex(s[e..], w), order))
  {
    var e := LiteralLength(s);
    var text, v := s[..e], s[e..];
    var u := ScanText(Lex(v, w), order);
    assert s == text + v;
    assert Lex(s, w)[1..] == Lex(v, w);
    ScanSameQuotes(v, w, order);
    LiteralStays(text, v, u);
    LiteralTextOpens(text, u);
  }

  lemma CastOpens(u: string)
    ensures Opens(CAST + u, Verbatim(CAST), u)
  {
    assert (CAST + u)[0] == ':' && (CAST + u)[2..] == u;
  }

  lemma {:induction false} DigitRunOf(x: string, u: string)
    requires (forall c :: c in x ==> IsDigit(c)) && (u != "" ==> !IsDigit(u[0]))
    ensures DigitRun(x + u) == |x|
  {
    if x == "" {
      assert x + u == u;
    } else {
      assert x[0] in x && (x + u)[1..] == x[1..] + u;
      DigitRunOf(x[1..], u);
    }
  }

  lemma RefOpens(k: nat, u: string)
    requires u != "" ==> !IsDigit(u[0])
    ensures Opens(("$" + Dec(k)) + u, Ref(k), u)
  {
    var x := Dec(k);
    var t := ("$" + x) + u;
    assert t[1..] == x + u;
    assert x[0] in x && t[1] == x[0];
    assert t[0] == '$' && !(CAST <= t);
    DigitRunOf(x, u);
    ValueOfDec(k);
    assert (x + u)[..|x|] == x && (x + u)[|x|..] == u;
  }

  lemma PlainOpens(c: char, u: string)
    requires c == QUOTE ==> QUOTE !in u
    requires c == ':' ==> u == "" || u[0] != ':'
    requires c == '$' ==> u == "" || !IsDigit(u[0])
    ensures Opens([c] + u, Verbatim([c]), u)
  {
    var t := [c] + u;
    assert t[1..] == u && t[0] == c;
    TailNeedsQuote(u);
    assert u != "" ==> t[1] == u[0];
    assert CAST[0] == ':' && CAST[1] == ':';
  }

  lemma StrayOpens(u: string)
    requires u != "" && IsDigit(u[0])
    ensures Read(['$'] + u) != [] && Read(['$'] + u)[0].Ref?
  {
    var t := ['$'] + u;
    assert t[1..] == u && !(CAST <= t);
  }

  // ---------------------------------------------------------------- the whole text

  /** The written text reads as its tokens when the query holds no stray number, and not otherwise. */
  predicate ReadsRight(s: string, w: char -> bool, order: seq<string>) {
    var toks := Lex(s, w);
    var read, wanted := Read(ScanText(toks, order)), Numbered(toks, order);
    if HasStray(toks) then Clash(read, wanted) else read == wanted
  }

  lemma ReadsRightCons(s: string, rest: string, w: char -> bool, order: seq<string>, o: seq<string>, p: Positioned)
    requires s != "" && Lex(s, w)[1..] == Lex(rest, w) && !StrayHead(Lex(s, w))
    requires Opens(ScanText(Lex(s, w), order), p, ScanText(Lex(rest, w), o))
    requires Numbered(Lex(s, w), order) == [p] + Numbered(Lex(rest, w), o)
    requires ReadsRight(rest, w, o)
    ensures ReadsRight(s, w, order)
  {
    if HasStray(Lex(rest, w)) {
      ClashLater(p, Read(ScanText(Lex(rest, w), o)), Numbered(Lex(rest, w), o));
    }
  }

  lemma PlainReadsRight(s: string, w: char -> bool, order: seq<string>)
    requires WordClass(w) && s != "" && !StartsLiteral(s) && !(CAST <= s) && !StartsName(s, w)
    requires ReadsRight(s[1..], w, order)
    ensures ReadsRight(s, w, order)
  {
    var toks, rest := Lex(s, w), s[1..];
    var u := ScanText(Lex(rest, w), order);
    assert toks[1..] == Lex(rest, w);
    FirstChar(rest, w, order);
    if s[0] == '$' && rest != "" && IsDigit(rest[0]) {
      assert Lex(rest, w)[0] == Plain(rest[0]);
      assert toks[1] == toks[1..][0];
      StrayOpens(u);
      var read, wanted := Read(ScanText(toks, order)), Numbered(toks, order);
      assert read[0].Ref? && wanted[0].Verbatim?;
    } else {
      if s[0] == QUOTE {
        TailNeedsQuote(rest);
        ScanKeepsQuotes(rest, w, order);
      }
      PlainOpens(s[0], u);
      NotStray(s, w);
      ReadsRightCons(s, rest, w, order, order, Verbatim([s[0]]));
    }
  }

  lemma NotStray(s: string, w: char -> bool)
    requires s != "" && !(s[0] == '$' && |s| > 1 && IsDigit(s[1]))
    ensures !StrayHead(Lex(s, w))
  {
    var toks := Lex(s, w);
    assert |toks| > 1 ==> toks[1] == toks[1..][0];
    assert toks[0].Plain? ==> toks[1..] == Lex(s[1..], w);
  }

  lemma NameReadsRight(s: string, w: char -> bool, order: seq<string>)
    requires WordClass(w) && DigitsAreWord(w) && !StartsLiteral(s) && !(CAST <= s) && StartsName(s, w)
    requires var x := NameAt(s, w); ReadsRight(s[1 + |x|..], w, Meet(order, x))
    ensures ReadsRight(s, w, order)
  {
    var x := NameAt(s, w);
    var rest, o := s[1 + |x|..], Meet(order, x);
    assert Lex(s, w)[1..] == Lex(rest, w);
    FirstChar(rest, w, o);
    RefOpens(IndexOf(o, x) + 1, ScanText(Lex(rest, w), o));
    ReadsRightCons(s, rest, w, order, o, Ref(IndexOf(o, x) + 1));
  }

  lemma {:induction false} WrittenTextReads(s: string, w: char -> bool, order: seq<string>)
    requires WordClass(w) && DigitsAreWord(w)
    ensures ReadsRight(s, w, order)
    decreases |s|
  {
    if s == "" {
    } else if StartsLiteral(s) {
      var e := LiteralLength(s);
      WrittenTextReads(s[e..], w, order);
      LiteralOpens(s, w, order);
      assert Lex(s, w)[1..] == Lex(s[e..], w);
      ReadsRightCons(s, s[e..], w, order, order, Verbatim(s[..e]));
    } else if CAST <= s {
      WrittenTextReads(s[2..], w, order);
      CastOpens(ScanText(Lex(s[2..], w), order));
      assert Lex(s, w)[1..] == Lex(s[2..], w);
      ReadsRightCons(s, s[2..], w, order, order, Verbatim(CAST));
    } else if StartsName(s, w) {
      var x := NameAt(s, w);
      WrittenTextReads(s[1 + |x|..], w, Meet(order, x));
      NameReadsRight(s, w, order);
    } else {
      WrittenTextReads(s[1..], w, order);
      PlainReadsRight(s, w, order);
    }
  }

  // ---------------------------------------------------------------- torn texts

  predicate ShowsNul(ps: seq<Positioned>) { exists k :: 0 <= k < |ps| && ps[k].Verbatim? && NUL in ps[k].text }

  lemma ShowsNulLater(p: Positioned, ps: seq<Positioned>)
    requires ShowsNul(ps)
    ensures ShowsNul([p] + ps)
  {
    var k :| 0 <= k < |ps| && ps[k].Verbatim? && NUL in ps[k].text;
    assert ([p] + ps)[k + 1] == ps[k];
  }

  lemma ShowsNulCons(p: Positioned, h: string, u: string)
    requires NUL in h + u
    requires (p.Verbatim? && p.text == h) || NUL !in h
    requires NUL in u ==> ShowsNul(Read(u))
    ensures ShowsNul([p] + Read(u))
  {
    if NUL in u {
      ShowsNulLater(p, Read(u));
    } else {
      assert ([p] + Read(u))[0] == p;
    }
  }

  /** How much of the text its first piece takes. */
  function FirstLength(t: string): (n: nat)
    requires t != ""
    ensures 1 <= n <= |t|
  {
    if StartsLiteral(t) then LiteralLength(t)
    else if CAST <= t then 2
    else if StartsRef(t) then 1 + DigitRun(t[1..])
    else 1
  }

  lemma ReadFirst(t: string)
    requires t != ""
    ensures var n := FirstLength(t);
            && Read(t) != [] && Read(t) == [Read(t)[0]] + Read(t[n..])
            && (Read(t)[0] == Verbatim(t[..n]) || NUL !in t[..n])
  {
    var n := FirstLength(t);
    if StartsLiteral(t) || CAST <= t {
    } else if StartsRef(t) {
      assert t[1..][n - 1..] == t[n..];
      forall k | 0 <= k < n ensures t[..n][k] != NUL {
        assert k > 0 ==> t[k] == t[1..][k - 1];
      }
    } else {
      assert t[..1] == [t[0]];
    }
  }

  lemma {:induction false} NulIsRead(t: string)
    requires NUL in t
    ensures ShowsNul(Read(t))
    decreases |t|
  {
    var n := FirstLength(t);
    var h, u := t[..n], t[n..];
    assert t == h + u;
    if NUL in u {
      NulIsRead(u);
    }
    ReadFirst(t);
    ShowsNulCons(Read(t)[0], h, u);
  }

  lemma {:induction false} NumberedShowsNone(toks: seq<Token>, order: seq<string>)
    requires forall k :: 0 <= k < |toks| ==> TokenSound(toks[k])
    ensures !ShowsNul(Numbered(toks, order))
  {
    if toks == [] {
    } else {
      assert TokenSound(toks[0]);
      NumberedShowsNone(toks[1..], if toks[0].Named? then Meet(order, toks[0].name) else order);
    }
  }

  // ---------------------------------------------------------------- the theorems

  /** Neither a placeholder spelled by accident nor a number of its own. */
  predicate Faithful(sql: string, w: char -> bool) { !Confusable(sql, w) && !HasStray(Lex(sql, w)) }

  /** Reading the rewritten text gives the query's tokens, names numbered, exactly for faithful texts. */
  lemma RewrittenTextReads(sql: string, w: char -> bool)
    requires WordClass(w) && DigitsAreWord(w) && NUL !in sql
    ensures var read, wanted := Read(Rewrite(sql, w).0), Numbered(Lex(sql, w), []);
            && (Faithful(sql, w) ==> read == wanted)
            && (!Faithful(sql, w) ==> Clash(read, wanted) || (ShowsNul(read) && !ShowsNul(wanted)))
  {
    RewriteMeetsScan(sql, w);
    WrittenTextReads(sql, w, []);
    if Confusable(sql, w) {
      NulIsRead(Rewrite(sql, w).0);
      LexSound(sql, w);
      NumberedShowsNone(Lex(sql, w), []);
    }
  }

  /** Different readings evaluate differently, whatever the arguments. */
  lemma ReadingsDiffer<V>(read: seq<Positioned>, wanted: seq<Positioned>, args: seq<V>)
    requires InRange(read, |args|) && InRange(wanted, |args|)
    requires Clash(read, wanted) || (ShowsNul(read) && !ShowsNul(wanted))
    ensures EvaluatePositional(read, args) != EvaluatePositional(wanted, args)
  {
    var a, b := EvaluatePositional(read, args), EvaluatePositional(wanted, args);
    if Clash(read, wanted) {
      var k :| 0 <= k < |read| && k < |wanted| && read[k].Ref? && wanted[k].Verbatim?;
      assert a[k].Bound? && b[k].Raw?;
    } else {
      var k :| 0 <= k < |read| && read[k].Verbatim? && NUL in read[k].text;
      assert a[k] == Raw(read[k].text);
      assert k < |wanted| ==> b[k] == PieceOf(wanted[k], args);
    }
  }

  /**
   The server's reading of the rewritten query has every number in range and evaluates, with the
   arguments, to the named query with its dictionary: exactly for faithful texts.
   */
  lemma EvaluationAgrees<V>(sql: string, w: char -> bool, params: map<string, V>, args: seq<V>)
    requires WordClass(w) && DigitsAreWord(w) && NUL !in sql
    requires var order := Rewrite(sql, w).1;
             |args| == |order| && forall k :: 0 <= k < |order| ==> order[k] in params && args[k] == params[order[k]]
    ensures forall x :: x in Names(Lex(sql, w)) ==> x in params
    ensures FirstUses(Rewrite(sql, w).1, Names(Lex(sql, w)))
    ensures var read := Read(Rewrite(sql, w).0);
            InRange(read, |args|) && EvaluatePositional(read, args) == EvaluateNamed(Lex(sql, w), params)
            <==> Faithful(sql, w)
  {
    var toks := Lex(sql, w);
    var read, wanted := Read(Rewrite(sql, w).0), Numbered(toks, []);
    RewriteMeetsScan(sql, w);
    assert [] + Names(toks) == Names(toks);
    OrderIsFirstUses(toks, [], [], Names(toks));
    NumbersResolve(toks, [], ScanOrder(toks, []), params, args);
    RewrittenTextReads(sql, w);
    if !Faithful(sql, w) && InRange(read, |args|) {
      ReadingsDiffer(read, wanted, args);
    }
  }
}
