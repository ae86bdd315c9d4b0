/**
 What the tokens of a query are, said of the text alone: the scan of SqlRewriter finds the one list
 of tokens that spells the text and obeys these rules.
 */
module SqlRewriterTokens {
  import opened Text
  import opened SqlRewriter
  import opened SqlRewriterProofs
  import opened SqlRewriterMeaning
  import opened SqlRewriterRestore
  import opened SqlRewriterServer

  /** The stretch of the query a token is. */
  function SourceOf(tok: Token): string {
    if tok.Named? then [':'] + tok.name else Verbatims(tok)
  }

  function Source(toks: seq<Token>): string {
    if toks == [] then "" else SourceOf(toks[0]) + Source(toks[1..])
  }

  /** Quotes only in pairs. */
  predicate Paired(t: string)
    decreases |t|
  {
    t == "" || (t[0] != QUOTE && Paired(t[1..])) || (|t| > 1 && t[0] == QUOTE && t[1] == QUOTE && Paired(t[2..]))
  }

  predicate IsQuoted(text: string) {
    |text| >= 2 && text[0] == QUOTE && text[|text| - 1] == QUOTE && Paired(text[1..|text| - 1])
  }

  /** May this token stand here, with `rest` behind it? */
  predicate Stands(tok: Token, rest: string, w: char -> bool) {
    match tok
    case Plain(c) =>
      && (c == QUOTE ==> QUOTE !in rest)
      && (c == ':' && rest != "" ==> rest[0] != ':' && !w(rest[0]))
    case CastOp => true
    case Named(x) => x != "" && (forall c :: c in x ==> w(c)) && (rest != "" ==> !w(rest[0]))
    case Literal(text) => IsQuoted(text) && (rest != "" && rest[0] == QUOTE ==> QUOTE !in rest[1..])
  }

  predicate AllStand(toks: seq<Token>, w: char -> bool) {
    toks == [] || (Stands(toks[0], Source(toks[1..]), w) && AllStand(toks[1..], w))
  }

  // ---------------------------------------------------------------- the scan obeys the rules

  /** Where a literal ends, and what is in it. */
  lemma {:induction false} TailShape(t: string)
    requires LiteralTail(t).Some?
    ensures var n := LiteralTail(t).value;
            && Paired(t[..n - 1])
            && (n < |t| && t[n] == QUOTE ==> QUOTE !in t[n + 1..])
    decreases |t|
  {
    var n := LiteralTail(t).value;
    if t[0] != QUOTE {
      TailShape(t[1..]);
      PairedSkip(t, n);
    } else if |t| > 1 && t[1] == QUOTE && LiteralTail(t[2..]).Some? {
      TailShape(t[2..]);
      PairedPair(t, n);
    } else {
      assert t[..0] == "";
      if |t| > 1 && t[1] == QUOTE {
        TailNeedsQuote(t[2..]);
      }
    }
  }

  lemma PairedSkip(t: string, n: nat)
    requires 2 <= n <= |t| && t[0] != QUOTE && Paired(t[1..][..n - 2])
    ensures Paired(t[..n - 1]) && (n < |t| ==> t[1..][n - 1] == t[n] && t[1..][n..] == t[n + 1..])
  {
    assert t[..n - 1][1..] == t[1..][..n - 2];
  }

  lemma PairedPair(t: string, n: nat)
    requires 3 <= n <= |t| && t[0] == QUOTE && t[1] == QUOTE && Paired(t[2..][..n - 3])
    ensures Paired(t[..n - 1]) && (n < |t| ==> t[2..][n - 2] == t[n] && t[2..][n - 1..] == t[n + 1..])
  {
    assert t[..n - 1][2..] == t[2..][..n - 3];
  }

  lemma LiteralStands(s: string, w: char -> bool)
    requires StartsLiteral(s)
    ensures Stands(Literal(s[..LiteralLength(s)]), s[LiteralLength(s)..], w)
  {
    var n := LiteralLength(s) - 1;
    var text := s[..n + 1];
    TailShape(s[1..]);
    assert text[1..|text| - 1] == s[1..][..n - 1];
    assert n + 1 < |s| ==> s[1..][n] == s[n + 1] && s[1..][n + 1..] == s[n + 1..][1..];
  }

  lemma PlainStands(s: string, w: char -> bool)
    requires s != "" && !StartsLiteral(s) && !(CAST <= s) && !StartsName(s, w)
    ensures Stands(Plain(s[0]), s[1..], w)
  {
    TailNeedsQuote(s[1..]);
    assert CAST[0] == ':' && CAST[1] == ':';
  }

  predicate Obeys(s: string, w: char -> bool) { Source(Lex(s, w)) == s && AllStand(Lex(s, w), w) }

  lemma ObeysCons(tok: Token, h: string, rest: string, w: char -> bool)
    requires Lex(h + rest, w) == [tok] + Lex(rest, w) && SourceOf(tok) == h
    requires Stands(tok, rest, w) && Obeys(rest, w)
    ensures Obeys(h + rest, w)
  {
    assert ([tok] + Lex(rest, w))[1..] == Lex(rest, w);
  }

  /** The first token, the stretch it takes, and what is left. */
  lemma ScanHead(s: string, w: char -> bool) returns (tok: Token, h: string, rest: string)
    requires s != ""
    ensures s == h + rest && h != "" && SourceOf(tok) == h && Stands(tok, rest, w)
    ensures Lex(s, w) == [tok] + Lex(rest, w)
  {
    if StartsLiteral(s) {
      h, rest := s[..LiteralLength(s)], s[LiteralLength(s)..];
      tok := Literal(h);
      LiteralStands(s, w);
    } else if CAST <= s {
      tok, h, rest := CastOp, CAST, s[2..];
    } else if StartsName(s, w) {
      var x := NameAt(s, w);
      tok, h, rest := Named(x), [':'] + x, s[1 + |x|..];
    } else {
      tok, h, rest := Plain(s[0]), [s[0]], s[1..];
      PlainStands(s, w);
    }
  }

  lemma {:induction false} ScanObeys(s: string, w: char -> bool)
    ensures Obeys(s, w)
    decreases |s|
  {
    if s == "" {
    } else {
      var tok, h, rest := ScanHead(s, w);
      ScanObeys(rest, w);
      ObeysCons(tok, h, rest, w);
    }
  }

  // ---------------------------------------------------------------- and nothing else does

  lemma TailPastChar(t: string, s: string)
    requires t != "" && t[0] != QUOTE && LiteralTail(t[1..] + s) == Some(|t|)
    ensures LiteralTail(t + s) == Some(|t| + 1)
  {
    TailDrops(t, s, 1);
    assert (t + s)[0] == t[0];
  }

  lemma TailPastPair(t: string, s: string)
    requires |t| > 1 && t[0] == QUOTE && t[1] == QUOTE && LiteralTail(t[2..] + s) == Some(|t| - 1)
    ensures LiteralTail(t + s) == Some(|t| + 1)
  {
    TailDrops(t, s, 2);
    assert (t + s)[0] == t[0] && (t + s)[1] == t[1];
  }

  lemma {:induction false} PairedTail(t: string, rest: string)
    requires Paired(t) && (rest != "" && rest[0] == QUOTE ==> QUOTE !in rest[1..])
    ensures LiteralTail(t + ([QUOTE] + rest)) == Some(|t| + 1)
    decreases |t|
  {
    var s := [QUOTE] + rest;
    if t == "" {
      assert t + s == s;
      TailCloses(rest);
    } else if t[0] != QUOTE {
      PairedTail(t[1..], rest);
      TailPastChar(t, s);
    } else {
      PairedTail(t[2..], rest);
      TailPastPair(t, s);
    }
  }

  lemma LiteralIsFirst(text: string, rest: string, w: char -> bool)
    requires Stands(Literal(text), rest, w)
    ensures Lex(text + rest, w) == [Literal(text)] + Lex(rest, w)
  {
    var n := |text|;
    var middle := text[1..n - 1];
    var s := text + rest;
    assert text == [QUOTE] + (middle + [QUOTE]);
    assert s[1..] == middle + ([QUOTE] + rest);
    PairedTail(middle, rest);
    assert s[..n] == text && s[n..] == rest;
  }

  lemma NameIsFirst(x: string, rest: string, w: char -> bool)
    requires WordClass(w) && Stands(Named(x), rest, w)
    ensures Lex([':'] + x + rest, w) == [Named(x)] + Lex(rest, w)
  {
    var s := [':'] + x + rest;
    assert s[1..] == x + rest;
    WordLengthOf(x, rest, w);
    assert x[0] in x && s[1] == x[0];
    assert (x + rest)[..|x|] == x && s[1 + |x|..] == rest;
    assert !(CAST <= s);
  }

  lemma PlainIsFirst(c: char, rest: string, w: char -> bool)
    requires WordClass(w) && Stands(Plain(c), rest, w)
    ensures Lex([c] + rest, w) == [Plain(c)] + Lex(rest, w)
  {
    var s := [c] + rest;
    assert s[1..] == rest;
    TailNeedsQuote(rest);
    assert rest != "" ==> s[1] == rest[0];
    assert CAST[0] == ':' && CAST[1] == ':';
  }

  lemma CastIsFirst(rest: string, w: char -> bool)
    ensures Lex(CAST + rest, w) == [CastOp] + Lex(rest, w)
  {
    assert (CAST + rest)[2..] == rest && (CAST + rest)[0] == ':';
  }

  lemma {:induction false} ScanFinds(toks: seq<Token>, w: char -> bool)
    requires WordClass(w) && AllStand(toks, w)
    ensures Lex(Source(toks), w) == toks
  {
    if toks == [] {
    } else {
      var rest := Source(toks[1..]);
      ScanFinds(toks[1..], w);
      match toks[0]
      case Plain(c) => PlainIsFirst(c, rest, w);
      case CastOp => CastIsFirst(rest, w);
      case Literal(text) => LiteralIsFirst(text, rest, w);
      case Named(x) => NameIsFirst(x, rest, w);
    }
  }

  /** The scan's tokens are the only ones that spell the text and obey the rules. */
  lemma TokensAreUnique(s: string, w: char -> bool, toks: seq<Token>)
    requires WordClass(w)
    ensures toks == Lex(s, w) <==> Source(toks) == s && AllStand(toks, w)
  {
    ScanObeys(s, w);
    if Source(toks) == s && AllStand(toks, w) {
      ScanFinds(toks, w);
    }
  }
}
