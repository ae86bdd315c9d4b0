/** The passes of SqlRewriter against its single scan. */
module SqlRewriterProofs {
  import opened Text
  import opened SqlRewriter

  // ---------------------------------------------------------------- hiding

  lemma {:induction false} LiteralTailSkip(u: string, v: string)
    requires QUOTE !in u
    ensures LiteralTail(u + v) == Shift(LiteralTail(v), |u|)
  {
    if u == "" {
      assert u + v == v;
    } else {
      assert (u + v)[0] == u[0] && u[0] in u;
      assert (u + v)[1..] == u[1..] + v;
      LiteralTailSkip(u[1..], v);
    }
  }

  /** A quote cuts the text in two for the cast pass. */
  lemma MarkCastsCut(t: string, n: nat)
    requires 1 <= n <= |t| && t[n - 1] == QUOTE
    ensures MarkCasts(t) == MarkCasts(t[..n]) + MarkCasts(t[n..])
    ensures MarkCasts(t[..n]) == MarkCasts(t[..n - 1]) + [QUOTE]
  {
    var u, v := t[..n - 1], t[n..];
    assert t == u + [QUOTE] + v;
    assert t[..n] == u + [QUOTE] + "";
    ReplaceSplit(u, QUOTE, v, CAST, CAST_MARK);
    ReplaceSplit(u, QUOTE, "", CAST, CAST_MARK);
  }

  lemma MarkCastsHead(s: string)
    requires s != ""
    ensures MarkCasts(s) == if CAST <= s then CAST_MARK + MarkCasts(s[2..]) else [s[0]] + MarkCasts(s[1..])
    ensures MarkCasts(s) != "" && (MarkCasts(s)[0] == QUOTE <==> s[0] == QUOTE)
  {
  }

  /** A literal ends at the same place before and after the cast pass. */
  predicate TailAgrees(t: string) {
    match LiteralTail(t)
    case None => LiteralTail(MarkCasts(t)) == None
    case Some(n) => LiteralTail(MarkCasts(t)) == Some(|MarkCasts(t[..n])|)
  }

  lemma MarkCastsCast(rest: string)
    ensures MarkCasts(CAST + rest) == CAST_MARK + MarkCasts(rest)
  {
  }

  lemma TailAgreesCast(t: string)
    requires CAST <= t && TailAgrees(t[2..])
    ensures TailAgrees(t)
  {
    var rest := t[2..];
    assert t == CAST + rest;
    MarkCastsCast(rest);
    LiteralTailSkip(CAST, rest);
    LiteralTailSkip(CAST_MARK, MarkCasts(rest));
    if LiteralTail(rest).Some? {
      var n := LiteralTail(rest).value;
      assert t[..n + 2] == CAST + rest[..n];
      MarkCastsCast(rest[..n]);
    }
  }

  lemma MarkCastsPlain(c: char, rest: string)
    requires !(CAST <= [c] + rest)
    ensures MarkCasts([c] + rest) == [c] + MarkCasts(rest)
  {
    assert ([c] + rest)[1..] == rest;
  }

  lemma PrefixHasNoCast(t: string, n: nat)
    requires 1 <= n <= |t| && !(CAST <= t)
    ensures !(CAST <= t[..n])
  {
  }

  lemma TailAgreesPlain(t: string)
    requires t != "" && t[0] != QUOTE && !(CAST <= t) && TailAgrees(t[1..])
    ensures TailAgrees(t)
  {
    var c, rest := t[0], t[1..];
    assert t == [c] + rest;
    MarkCastsPlain(c, rest);
    LiteralTailSkip([c], rest);
    LiteralTailSkip([c], MarkCasts(rest));
    if LiteralTail(rest).Some? {
      var n := LiteralTail(rest).value;
      assert t[..n + 1] == [c] + rest[..n];
      PrefixHasNoCast(t, n + 1);
      MarkCastsPlain(c, rest[..n]);
    }
  }

  lemma MarkCastsQuote(s: string)
    ensures MarkCasts([QUOTE] + s) == [QUOTE] + MarkCasts(s)
  {
    var t := [QUOTE] + s;
    assert CAST[0] == ':' && t[0] == QUOTE;
    assert !(CAST <= t);
    assert t[1..] == s;
  }

  lemma TailAgreesPair(t: string)
    requires |t| > 1 && t[0] == QUOTE && t[1] == QUOTE && TailAgrees(t[2..])
    ensures TailAgrees(t)
  {
    var rest := t[2..];
    assert t == [QUOTE] + ([QUOTE] + rest);
    MarkCastsQuote([QUOTE] + rest);
    MarkCastsQuote(rest);
    var m := MarkCasts(t);
    assert m[2..] == MarkCasts(rest);
    match LiteralTail(rest)
    case None =>
      assert t[..1] == [QUOTE] + "";
      MarkCastsQuote("");
    case Some(n) =>
      assert t[..n + 2] == [QUOTE] + ([QUOTE] + rest[..n]);
      MarkCastsQuote([QUOTE] + rest[..n]);
      MarkCastsQuote(rest[..n]);
  }

  lemma TailAgreesClose(t: string)
    requires t != "" && t[0] == QUOTE && (|t| > 1 ==> t[1] != QUOTE)
    ensures TailAgrees(t)
  {
    assert t == [QUOTE] + t[1..];
    MarkCastsQuote(t[1..]);
    assert t[..1] == [QUOTE] + "";
    MarkCastsQuote("");
    if |t| > 1 {
      MarkCastsHead(t[1..]);
    }
  }

  lemma {:induction false} LiteralTailMarked(t: string)
    ensures TailAgrees(t)
    decreases |t|
  {
    if t == "" {
    } else if CAST <= t {
      LiteralTailMarked(t[2..]);
      TailAgreesCast(t);
    } else if t[0] != QUOTE {
      LiteralTailMarked(t[1..]);
      TailAgreesPlain(t);
    } else if |t| > 1 && t[1] == QUOTE {
      LiteralTailMarked(t[2..]);
      TailAgreesPair(t);
    } else {
      TailAgreesClose(t);
    }
  }

  function Hidden(s: string, n: nat): (string, seq<string>) { HideLiterals(MarkCasts(s), n) }

  /** Hiding casts and then literals, seen from the original text. */
  lemma HiddenStep(s: string, n: nat)
    requires s != ""
    ensures StartsLiteral(s) ==>
              var e := LiteralLength(s);
              Hidden(s, n) == (LiteralMark(n) + Hidden(s[e..], n + 1).0,
                               [MarkCasts(s[..e])] + Hidden(s[e..], n + 1).1)
    ensures !StartsLiteral(s) && CAST <= s ==>
              Hidden(s, n) == (CAST_MARK + Hidden(s[2..], n).0, Hidden(s[2..], n).1)
    ensures !StartsLiteral(s) && !(CAST <= s) ==>
              Hidden(s, n) == ([s[0]] + Hidden(s[1..], n).0, Hidden(s[1..], n).1)
  {
    var t := MarkCasts(s);
    if s[0] == QUOTE {
      assert t == [QUOTE] + MarkCasts(s[1..]);
      assert t[1..] == MarkCasts(s[1..]);
      LiteralTailMarked(s[1..]);
      if StartsLiteral(s) {
        var e := LiteralLength(s);
        MarkCastsCut(s, e);
        assert s[..e][1..] == s[1..][..e - 1];
        assert MarkCasts(s[..e]) == [QUOTE] + MarkCasts(s[1..][..e - 1]);
        assert LiteralLength(t) == |MarkCasts(s[..e])|;
        assert t[..LiteralLength(t)] == MarkCasts(s[..e]);
        assert t[LiteralLength(t)..] == MarkCasts(s[e..]);
      }
    } else if CAST <= s {
      HideSkip(CAST_MARK, MarkCasts(s[2..]), n);
    } else {
      HideSkip([s[0]], MarkCasts(s[1..]), n);
    }
  }

  lemma {:induction false} HideSkip(u: string, v: string, n: nat)
    requires QUOTE !in u
    ensures HideLiterals(u + v, n) == (u + HideLiterals(v, n).0, HideLiterals(v, n).1)
  {
    if u == "" {
      assert u + v == v;
      assert u + HideLiterals(v, n).0 == HideLiterals(v, n).0;
    } else {
      assert (u + v)[0] == u[0] && u[0] in u;
      assert (u + v)[1..] == u[1..] + v;
      HideSkip(u[1..], v, n);
      assert u + HideLiterals(v, n).0 == [u[0]] + (u[1..] + HideLiterals(v, n).0);
    }
  }

  /** A parameter name passes through the hiding unharmed. */
  lemma HiddenName(s: string, n: nat, w: char -> bool)
    requires WordClass(w) && StartsName(s, w)
    ensures var x := NameAt(s, w); var rest := s[1 + |x|..];
            Hidden(s, n) == ([':'] + x + Hidden(rest, n).0, Hidden(rest, n).1)
  {
    var x := NameAt(s, w);
    var rest := s[1 + |x|..];
    var marked := MarkCasts(rest);
    assert s[1..] == x + rest;
    assert x[0] in x && s[1] == x[0];
    assert MarkCasts(s) == [':'] + MarkCasts(x + rest);
    ReplaceSkip(x, rest, CAST, CAST_MARK);
    Regroup([':'], x, marked);
    HideSkip([':'] + x, marked, n);
  }

  lemma NumberStep(t: string, order: seq<string>, w: char -> bool)
    requires t != "" && t[0] != ':'
    ensures NumberNames(t, order, w) == ([t[0]] + NumberNames(t[1..], order, w).0, NumberNames(t[1..], order, w).1)
  {
  }

  lemma {:induction false} NumberSkip(u: string, v: string, order: seq<string>, w: char -> bool)
    requires ':' !in u
    ensures NumberNames(u + v, order, w) == (u + NumberNames(v, order, w).0, NumberNames(v, order, w).1)
  {
    var r := NumberNames(v, order, w).0;
    if u == "" {
      assert u + v == v;
      assert u + r == r;
    } else {
      assert (u + v)[0] == u[0] && u[0] in u;
      assert (u + v)[1..] == u[1..] + v;
      NumberStep(u + v, order, w);
      NumberSkip(u[1..], v, order, w);
      assert u == [u[0]] + u[1..];
      Regroup([u[0]], u[1..], r);
    }
  }

  lemma {:induction false} WordLengthOf(x: string, v: string, w: char -> bool)
    requires forall c :: c in x ==> w(c)
    requires v != "" ==> !w(v[0])
    ensures WordLength(x + v, w) == |x|
  {
    if x == "" {
      assert x + v == v;
    } else {
      assert (x + v)[1..] == x[1..] + v;
      WordLengthOf(x[1..], v, w);
    }
  }

  /** Hiding does not disturb where a name ends. */
  lemma HiddenHead(s: string, n: nat, w: char -> bool)
    requires WordClass(w)
    ensures Hidden(s, n).0 == "" <==> s == ""
    ensures s != "" ==> (w(Hidden(s, n).0[0]) <==> w(s[0]))
  {
  }

  function MarkAll(literals: seq<string>): seq<string> {
    if literals == [] then [] else [MarkCasts(literals[0])] + MarkAll(literals[1..])
  }

  lemma {:induction false} ShowAppend(a: seq<Item>, b: seq<Item>)
    ensures Show(a + b) == Show(a) + Show(b)
  {
    if a == [] {
      assert a + b == b;
    } else {
      assert a + b == [a[0]] + (a[1..] + b);
      assert Show(a + b) == ShowOne(a[0]) + Show(a[1..] + b);
      ShowAppend(a[1..], b);
      Regroup(ShowOne(a[0]), Show(a[1..]), Show(b));
    }
  }

  lemma {:induction false} MeaningAppend(a: seq<Item>, b: seq<Item>)
    ensures Meaning(a + b) == Meaning(a) + Meaning(b)
  {
    if a == [] {
      assert a + b == b;
    } else {
      assert a + b == [a[0]] + (a[1..] + b);
      assert Meaning(a + b) == MeaningOne(a[0]) + Meaning(a[1..] + b);
      MeaningAppend(a[1..], b);
      Regroup(MeaningOne(a[0]), Meaning(a[1..]), Meaning(b));
    }
  }

  lemma {:induction false} ShowChars(s: string)
    ensures Show(Chars(s)) == s && Meaning(Chars(s)) == s
    ensures |Chars(s)| == |s| && forall q :: 0 <= q < |s| ==> Chars(s)[q] == Char(s[q])
  {
    if s == "" {
    } else {
      ShowChars(s[1..]);
      assert s == [s[0]] + s[1..];
    }
  }

  /** The first three passes produce exactly the items of the scan, and its parameter order. */
  predicate Reached(s: string, n: nat, order: seq<string>, w: char -> bool) {
    && NumberNames(Hidden(s, n).0, order, w) == (Show(Items(Lex(s, w), n, order)), ScanOrder(Lex(s, w), order))
    && Hidden(s, n).1 == MarkAll(Literals(Lex(s, w)))
  }

  lemma LiteralReaches(s: string, n: nat, order: seq<string>, w: char -> bool)
    requires StartsLiteral(s) && Reached(s[LiteralLength(s)..], n + 1, order, w)
    ensures Reached(s, n, order, w)
  {
    var toks, e := Lex(s, w), LiteralLength(s);
    HiddenStep(s, n);
    assert ':' !in LiteralMark(n) by { forall c | c in Dec(n) ensures c != ':' { assert IsDigit(c); } }
    NumberSkip(LiteralMark(n), Hidden(s[e..], n + 1).0, order, w);
    assert toks[1..] == Lex(s[e..], w);
    assert Literals(toks) == [s[..e]] + Literals(toks[1..]);
    assert MarkAll(Literals(toks)) == [MarkCasts(s[..e])] + MarkAll(Literals(toks[1..]));
  }

  lemma CastReaches(s: string, n: nat, order: seq<string>, w: char -> bool)
    requires CAST <= s && Reached(s[2..], n, order, w)
    ensures Reached(s, n, order, w)
  {
    var toks := Lex(s, w);
    HiddenStep(s, n);
    NumberSkip(CAST_MARK, Hidden(s[2..], n).0, order, w);
    assert toks[1..] == Lex(s[2..], w);
    assert Literals(toks) == Literals(toks[1..]);
  }

  lemma PlainReaches(s: string, n: nat, order: seq<string>, w: char -> bool)
    requires s != "" && WordClass(w) && !StartsLiteral(s) && !(CAST <= s) && !StartsName(s, w)
    requires Reached(s[1..], n, order, w)
    ensures Reached(s, n, order, w)
  {
    var toks, h := Lex(s, w), Hidden(s[1..], n).0;
    HiddenStep(s, n);
    HiddenHead(s[1..], n, w);
    assert Hidden(s, n).0[1..] == h;
    assert !StartsName(Hidden(s, n).0, w);
    assert toks[1..] == Lex(s[1..], w);
    assert Literals(toks) == Literals(toks[1..]);
  }

  /** The numbering finds the same name in the hidden text. */
  lemma NameStaysHead(s: string, n: nat, w: char -> bool)
    requires WordClass(w) && StartsName(s, w)
    ensures var x := NameAt(s, w); var h := Hidden(s, n).0; var h' := Hidden(s[1 + |x|..], n).0;
            StartsName(h, w) && NameAt(h, w) == x && h[1 + |x|..] == h'
  {
    var x := NameAt(s, w);
    var rest := s[1 + |x|..];
    var h' := Hidden(rest, n).0;
    HiddenName(s, n, w);
    HiddenHead(rest, n, w);
    WordLengthOf(x, h', w);
    assert Hidden(s, n).0 == [':'] + (x + h');
    assert Hidden(s, n).0[1..] == x + h';
  }

  lemma NameReaches(s: string, n: nat, order: seq<string>, w: char -> bool)
    requires WordClass(w) && !StartsLiteral(s) && !(CAST <= s) && StartsName(s, w)
    requires var x := NameAt(s, w); Reached(s[1 + |x|..], n, Meet(order, x), w)
    ensures Reached(s, n, order, w)
  {
    var x := NameAt(s, w);
    NameStaysHead(s, n, w);
    HiddenName(s, n, w);
    var toks := Lex(s, w);
    assert toks[1..] == Lex(s[1 + |x|..], w);
    assert Literals(toks) == Literals(toks[1..]);
    var k := Positional(order, x);
    ShowChars(k);
    ShowAppend(Chars(k), Items(toks[1..], n, Meet(order, x)));
  }

  lemma {:induction false} PassesReachItems(s: string, n: nat, order: seq<string>, w: char -> bool)
    requires WordClass(w)
    ensures Reached(s, n, order, w)
    decreases |s|
  {
    if s == "" {
    } else if StartsLiteral(s) {
      PassesReachItems(s[LiteralLength(s)..], n + 1, order, w);
      LiteralReaches(s, n, order, w);
    } else if CAST <= s {
      PassesReachItems(s[2..], n, order, w);
      CastReaches(s, n, order, w);
    } else if StartsName(s, w) {
      var x := NameAt(s, w);
      PassesReachItems(s[1 + |x|..], n, Meet(order, x), w);
      NameReaches(s, n, order, w);
    } else {
      PassesReachItems(s[1..], n, order, w);
      PlainReaches(s, n, order, w);
    }
  }
}
