/** Three ordinary queries: one rewritten as it should be, two that the rewriting gets wrong. */
module SqlRewriterExamples {
  import opened Text
  import opened SqlRewriter
  import opened SqlRewriterProofs
  import opened SqlRewriterRestore
  import opened SqlRewriterServer
  import opened SqlRewriterTokens

  function Plains(s: string): seq<Token> {
    if s == "" then [] else [Plain(s[0])] + Plains(s[1..])
  }

  lemma LexPlain(c: char, rest: string, w: char -> bool)
    requires c != ':' && c != QUOTE
    ensures Lex([c] + rest, w) == [Plain(c)] + Lex(rest, w)
  {
  }

  lemma {:induction false} LexPlains(s: string, rest: string, w: char -> bool)
    requires ':' !in s && QUOTE !in s
    ensures Lex(s + rest, w) == Plains(s) + Lex(rest, w)
  {
    if s == "" {
      assert s + rest == rest;
    } else {
      assert s[0] in s;
      assert s + rest == [s[0]] + (s[1..] + rest);
      LexPlain(s[0], s[1..] + rest, w);
      LexPlains(s[1..], rest, w);
    }
  }

  function Quotes(body: string): string { [QUOTE] + (body + [QUOTE]) }

  lemma LexLiteral(text: string, rest: string, w: char -> bool)
    requires StartsLiteral(text + rest) && LiteralLength(text + rest) == |text|
    ensures Lex(text + rest, w) == [Literal(text)] + Lex(rest, w)
  {
    assert (text + rest)[..|text|] == text && (text + rest)[|text|..] == rest;
  }

  lemma QuotesOpen(body: string, rest: string)
    requires QUOTE !in body && (rest != "" ==> rest[0] != QUOTE)
    ensures StartsLiteral(Quotes(body) + rest) && LiteralLength(Quotes(body) + rest) == |Quotes(body)|
  {
    var tail := [QUOTE] + rest;
    LiteralTailSkip(body, tail);
    assert LiteralTail(tail) == Some(1);
    assert (Quotes(body) + rest)[1..] == body + tail;
  }

  lemma LexQuotes(body: string, rest: string, w: char -> bool)
    requires QUOTE !in body && (rest != "" ==> rest[0] != QUOTE)
    ensures Lex(Quotes(body) + rest, w) == [Literal(Quotes(body))] + Lex(rest, w)
  {
    QuotesOpen(body, rest);
    LexLiteral(Quotes(body), rest, w);
  }

  lemma {:induction false} PlacesOfPlains(s: string, toks: seq<Token>, n: nat, order: seq<string>)
    ensures Literals(Plains(s) + toks) == Literals(toks)
    ensures Items(Plains(s) + toks, n, order) == Chars(s) + Items(toks, n, order)
  {
    if s == "" {
      assert Plains(s) + toks == toks;
    } else {
      assert Plains(s) + toks == [Plain(s[0])] + (Plains(s[1..]) + toks);
      PlacesOfPlains(s[1..], toks, n, order);
    }
  }

  lemma {:induction false} RevealChars(s: string, rest: seq<Item>, i: nat)
    ensures Reveal(Chars(s) + rest, i) == Chars(s) + Reveal(rest, i)
  {
    if s == "" {
      assert Chars(s) + rest == rest;
    } else {
      assert Chars(s) + rest == [Char(s[0])] + (Chars(s[1..]) + rest);
      RevealChars(s[1..], rest, i);
    }
  }

  lemma {:induction false} AmbiguousBehind(before: seq<Item>, items: seq<Item>, i: nat)
    requires Ambiguous(items, i)
    ensures Ambiguous(before + items, i)
  {
    if before == [] {
      assert before + items == items;
    } else {
      assert (before + items)[1..] == before[1..] + items;
      AmbiguousBehind(before[1..], items, i);
      AmbiguousStep(before + items, i);
    }
  }

  // ---------------------------------------------------------------- a name at the end

  const BY_ID: string := "SELECT * FROM sales WHERE id = "

  lemma {:induction false} ScanPlains(s: string, toks: seq<Token>, order: seq<string>)
    ensures ScanText(Plains(s) + toks, order) == s + ScanText(toks, order)
    ensures ScanOrder(Plains(s) + toks, order) == ScanOrder(toks, order)
  {
    if s == "" {
      assert Plains(s) + toks == toks;
    } else {
      assert Plains(s) + toks == [Plain(s[0])] + (Plains(s[1..]) + toks);
      ScanPlains(s[1..], toks, order);
      assert s == [s[0]] + s[1..];
    }
  }

  lemma ScanName(x: string)
    ensures ScanText([Named(x)], []) == "$1" && ScanOrder([Named(x)], []) == [x] && Literals([Named(x)]) == []
  {
    assert [Named(x)][1..] == [] && Meet([], x) == [x];
    assert Dec(1) == "1";
  }

  lemma LexNameAfter(before: string, x: string, w: char -> bool)
    requires WordClass(w) && x != "" && (forall c :: c in x ==> w(c)) && ':' !in before && QUOTE !in before
    ensures Lex(before + ([':'] + x), w) == Plains(before) + [Named(x)]
  {
    assert [':'] + x + "" == [':'] + x;
    NameIsFirst(x, "", w);
    LexPlains(before, [':'] + x, w);
  }

  /** One name at the end of a text without literals or casts: it becomes `$1`, and the one parameter. */
  lemma NameAfter(before: string, x: string, w: char -> bool)
    requires WordClass(w) && x != "" && (forall c :: c in x ==> w(c))
    requires ':' !in before && QUOTE !in before && NUL !in before
    ensures Rewrite(before + ([':'] + x), w) == (before + "$1", [x])
  {
    LexNameAfter(before, x, w);
    PlacesOfPlains(before, [Named(x)], 0, []);
    ScanPlains(before, [Named(x)], []);
    ScanName(x);
    RewriteMeetsScan(before + ([':'] + x), w);
  }

  /** `SELECT * FROM sales WHERE id = :sid` becomes `... id = $1` with the one parameter. */
  lemma NameAtEnd(w: char -> bool)
    requires WordClass(w) && w('s') && w('i') && w('d')
    ensures Rewrite(BY_ID + ":sid", w) == (BY_ID + "$1", ["sid"])
  {
    NameAfter(BY_ID, "sid", w);
    assert [':'] + "sid" == ":sid";
  }

  // ---------------------------------------------------------------- a placeholder inside a literal

  const BODY: string := "::STR1::"
  const TAIL: string := ", " + Quotes("b")
  const CONFUSING: string := "SELECT " + (Quotes(BODY) + TAIL)

  lemma LexTail(w: char -> bool)
    ensures Lex(TAIL, w) == Plains(", ") + [Literal(Quotes("b"))]
  {
    LexPlains(", ", Quotes("b"), w);
    LexQuotes("b", "", w);
    assert Quotes("b") + "" == Quotes("b");
  }

  lemma LexConfusing(w: char -> bool)
    ensures Lex(CONFUSING, w) ==
            Plains("SELECT ") + ([Literal(Quotes(BODY))] + (Plains(", ") + [Literal(Quotes("b"))]))
  {
    LexPlains("SELECT ", Quotes(BODY) + TAIL, w);
    LexQuotes(BODY, TAIL, w);
    LexTail(w);
  }

  lemma PlacesConfusing(toks: seq<Token>)
    requires toks == Plains("SELECT ") + ([Literal(Quotes(BODY))] + (Plains(", ") + [Literal(Quotes("b"))]))
    ensures |Literals(toks)| == 2
    ensures Items(toks, 0, []) ==
            Chars("SELECT ") + ([LiteralPlace(0, Quotes(BODY))] + (Chars(", ") + [LiteralPlace(1, Quotes("b"))]))
  {
    var last := [Literal(Quotes("b"))];
    var rest := Plains(", ") + last;
    var middle := [Literal(Quotes(BODY))] + rest;
    PlacesOfPlains(", ", last, 1, []);
    PlacesOfPlains("SELECT ", middle, 0, []);
    assert last[1..] == [] && middle[1..] == rest;
  }

  /** The inside of the first literal, once it is back in the text. */
  lemma InsideConfusing()
    ensures Inside(Quotes(BODY)) == [Char(QUOTE)] + ([CastPlace] + (Chars("STR1") + ([CastPlace] + [Char(QUOTE)])))
  {
    InsideChar(QUOTE, BODY + [QUOTE]);
    InsideCast("STR1::" + [QUOTE]);
    assert BODY + [QUOTE] == CAST + ("STR1::" + [QUOTE]);
    InsideChars("STR1", "::" + [QUOTE]);
    assert "STR1::" + [QUOTE] == "STR1" + ("::" + [QUOTE]);
    InsideCast([QUOTE]);
    InsideChar(QUOTE, "");
    assert [QUOTE] + "" == [QUOTE];
  }

  lemma InsideChar(c: char, rest: string)
    requires c != ':'
    ensures Inside([c] + rest) == [Char(c)] + Inside(rest)
  {
    assert ([c] + rest)[1..] == rest && ([c] + rest)[0] == c;
  }

  lemma {:induction false} InsideChars(s: string, rest: string)
    requires ':' !in s
    ensures Inside(s + rest) == Chars(s) + Inside(rest)
  {
    if s == "" {
      assert s + rest == rest;
    } else {
      assert s[0] in s;
      assert s + rest == [s[0]] + (s[1..] + rest);
      InsideChar(s[0], s[1..] + rest);
      InsideChars(s[1..], rest);
    }
  }

  lemma InsideCast(rest: string)
    ensures Inside(CAST + rest) == [CastPlace] + Inside(rest)
  {
    assert (CAST + rest)[2..] == rest;
  }

  lemma KeyBetweenCasts(key: string, i: nat, after: seq<Item>)
    requires key == LiteralKey(i)
    ensures Ambiguous([Char(QUOTE)] + ([CastPlace] + (Chars(key) + ([CastPlace] + after))), i)
  {
    var spelled := Chars(key) + ([CastPlace] + after);
    ShowChars(key);
    assert Spelled(spelled, key);
    var items := [CastPlace] + spelled;
    assert items[1..] == spelled;
    AmbiguousStep(items, i);
    AmbiguousBehind([Char(QUOTE)], items, i);
  }

  lemma RevealFirst(before: string, text: string, rest: seq<Item>)
    ensures RevealBelow(Chars(before) + ([LiteralPlace(0, text)] + rest), 1)
         == Chars(before) + (Inside(text) + Reveal(rest, 0))
  {
    var middle := [LiteralPlace(0, text)] + rest;
    RevealChars(before, middle, 0);
    assert middle[1..] == rest;
    assert RevealBelow(Chars(before) + middle, 0) == Chars(before) + middle;
  }

  lemma Reassociate(a: seq<Item>, b: seq<Item>, m: seq<Item>, c: seq<Item>, d: seq<Item>, after: seq<Item>)
    ensures (a + (b + (m + (c + d)))) + after == a + (b + (m + (c + (d + after))))
  {
  }

  lemma InsideIsAmbiguous(after: seq<Item>)
    ensures Ambiguous(Inside(Quotes(BODY)) + after, 1)
  {
    InsideConfusing();
    var close := [Char(QUOTE)] + after;
    assert LiteralKey(1) == "STR1";
    KeyBetweenCasts("STR1", 1, close);
    Reassociate([Char(QUOTE)], [CastPlace], Chars("STR1"), [CastPlace], [Char(QUOTE)], after);
  }

  lemma RevealConfusing(rest: seq<Item>)
    ensures AmbiguousAtStep(Chars("SELECT ") + ([LiteralPlace(0, Quotes(BODY))] + rest), 1)
  {
    RevealFirst("SELECT ", Quotes(BODY), rest);
    InsideIsAmbiguous(Reveal(rest, 0));
    AmbiguousBehind(Chars("SELECT "), Inside(Quotes(BODY)) + Reveal(rest, 0), 1);
  }

  lemma ConfusingText()
    ensures CONFUSING == "SELECT '::STR1::', 'b'" && NUL !in CONFUSING
  {
  }

  /** `SELECT '::STR1::', 'b'`: the first literal, its casts hidden, spells the second one's placeholder. */
  lemma ConfusionHappens(w: char -> bool)
    requires WordClass(w)
    ensures CONFUSING == "SELECT '::STR1::', 'b'"
    ensures Rewrite(CONFUSING, w).0 != ScanText(Lex(CONFUSING, w), [])
  {
    ConfusingText();
    LexConfusing(w);
    var toks := Lex(CONFUSING, w);
    PlacesConfusing(toks);
    RevealConfusing(Chars(", ") + [LiteralPlace(1, Quotes("b"))]);
    assert Confusable(CONFUSING, w);
    RewriteMeetsScan(CONFUSING, w);
  }

  // ---------------------------------------------------------------- a number of its own

  const STRAY: string := "SELECT " + (['$'] + (['1'] + ", :a"))

  /** `SELECT $1, :a`: both columns are read as the first parameter. */
  lemma StrayHappens(w: char -> bool)
    requires WordClass(w) && DigitsAreWord(w)
    ensures STRAY == "SELECT $1, :a" && !Faithful(STRAY, w)
    ensures Read(Rewrite(STRAY, w).0) != Numbered(Lex(STRAY, w), [])
  {
    var rest := ['$'] + (['1'] + ", :a");
    LexPlains("SELECT ", rest, w);
    LexPlain('$', ['1'] + ", :a", w);
    LexPlain('1', ", :a", w);
    var toks := Lex(rest, w);
    assert toks == [Plain('$')] + ([Plain('1')] + Lex(", :a", w));
    assert toks[1] == Plain('1');
    assert StrayHead(toks);
    StrayLater(Plains("SELECT "), toks);
    StrayHasNoNul();
    RewrittenTextReads(STRAY, w);
  }

  lemma StrayHasNoNul()
    ensures STRAY == "SELECT $1, :a" && NUL !in STRAY
  {
  }

  lemma {:induction false} StrayLater(before: seq<Token>, toks: seq<Token>)
    requires HasStray(toks)
    ensures HasStray(before + toks)
  {
    if before == [] {
      assert before + toks == toks;
    } else {
      assert (before + toks)[1..] == before[1..] + toks;
      StrayLater(before[1..], toks);
    }
  }
}
