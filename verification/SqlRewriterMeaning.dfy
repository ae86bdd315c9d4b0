/**
 The parameter order, and a plain condition under which the passes are always exact.
 */
module SqlRewriterMeaning {
  import opened Text
  import opened SqlRewriter
  import opened SqlRewriterProofs
  import opened SqlRewriterRestore

  // ---------------------------------------------------------------- parameter order

  function Names(toks: seq<Token>): seq<string> {
    if toks == [] then []
    else (if toks[0].Named? then [toks[0].name] else []) + Names(toks[1..])
  }

  /** `order` lists the names of `seen` without repetition, by first use. */
  ghost predicate FirstUses(order: seq<string>, seen: seq<string>) {
    && (forall x :: x in order <==> x in seen)
    && (forall i, j :: 0 <= i < j < |order| ==>
          order[i] in seen && order[j] in seen && IndexOf(seen, order[i]) < IndexOf(seen, order[j]))
  }

  lemma {:induction false} IndexOfAppend(seen: seq<string>, more: seq<string>, x: string)
    requires x in seen
    ensures IndexOf(seen + more, x) == IndexOf(seen, x)
  {
    assert (seen + more)[0] == seen[0];
    if seen[0] == x {
    } else {
      assert (seen + more)[1..] == seen[1..] + more;
      IndexOfAppend(seen[1..], more, x);
    }
  }

  lemma IndexOfNew(seen: seq<string>, x: string)
    requires x !in seen
    ensures IndexOf(seen + [x], x) == |seen|
  {
  }

  lemma MeetKeepsFirstUses(order: seq<string>, seen: seq<string>, x: string)
    requires FirstUses(order, seen)
    ensures FirstUses(Meet(order, x), seen + [x])
  {
    var o, s := Meet(order, x), seen + [x];
    forall i, j | 0 <= i < j < |o|
      ensures o[i] in s && o[j] in s && IndexOf(s, o[i]) < IndexOf(s, o[j])
    {
      assert o[i] == order[i] && order[i] in order;
      IndexOfAppend(seen, [x], order[i]);
      if j < |order| {
        assert order[j] in order;
        IndexOfAppend(seen, [x], order[j]);
      } else {
        IndexOfNew(seen, x);
      }
    }
  }

  lemma {:induction false} OrderIsFirstUses(toks: seq<Token>, order: seq<string>, seen: seq<string>, all: seq<string>)
    requires FirstUses(order, seen) && all == seen + Names(toks)
    ensures FirstUses(ScanOrder(toks, order), all)
  {
    if toks == [] {
      assert all == seen;
    } else if toks[0].Named? {
      var x := toks[0].name;
      assert all == (seen + [x]) + Names(toks[1..]);
      MeetKeepsFirstUses(order, seen, x);
      OrderIsFirstUses(toks[1..], Meet(order, x), seen + [x], all);
    } else {
      assert all == seen + Names(toks[1..]);
      OrderIsFirstUses(toks[1..], order, seen, all);
    }
  }

  // ---------------------------------------------------------------- a sufficient condition on the text

  predicate KeyHead(s: string) { |s| >= 4 && s[0] == 'S' && s[1] == 'T' && s[2] == 'R' && IsDigit(s[3]) }

  /** "STR" and a digit, somewhere. */
  predicate HasKey(s: string) { s != "" && (KeyHead(s) || HasKey(s[1..])) }

  predicate CharsHead(items: seq<Item>, key: string) {
    |key| <= |items| && forall q :: 0 <= q < |key| ==> items[q] == Char(key[q])
  }

  lemma CharsHeadCons(items: seq<Item>, key: string)
    requires items != [] && key != ""
    ensures CharsHead(items, key) <==> items[0] == Char(key[0]) && CharsHead(items[1..], key[1..])
  {
  }

  predicate SpellsAt(items: seq<Item>) {
    |items| >= 4 && items[3].Char? && IsDigit(items[3].c) && CharsHead(items, ['S', 'T', 'R', items[3].c])
  }

  predicate Spells(items: seq<Item>) { items != [] && (SpellsAt(items) || Spells(items[1..])) }

  lemma {:induction false} SpellsLater(items: seq<Item>, p: nat)
    requires p <= |items| && Spells(items[p..])
    ensures Spells(items)
  {
    if p == 0 {
      assert items[0..] == items;
    } else {
      assert items[1..][p - 1..] == items[p..];
      SpellsLater(items[1..], p - 1);
    }
  }

  lemma AmbiguousSpells(items: seq<Item>, i: nat)
    requires Ambiguous(items, i)
    ensures Spells(items)
  {
    var p :| 0 <= p < |items| && !items[p].Char?
      && !(items[p].LiteralPlace? && items[p].index == i) && Spelled(items[p + 1..], LiteralKey(i));
    var rest, key := items[p + 1..], LiteralKey(i);
    assert key[3] == Dec(i)[0] && Dec(i)[0] in Dec(i);
    assert rest[0] == Char(key[0]) && rest[1] == Char(key[1]) && rest[2] == Char(key[2]) && rest[3] == Char(key[3]);
    assert SpellsAt(rest);
    SpellsLater(items, p + 1);
  }

  lemma InsideHead(text: string, after: seq<Item>, c: char)
    requires text != "" && (Inside(text) + after)[0] == Char(c)
    ensures text[0] == c && (Inside(text) + after)[1..] == Inside(text[1..]) + after
  {
  }

  /** Plain letters seen through a literal's inside are letters of the literal. */
  lemma {:induction false} HeadOfInside(text: string, after: seq<Item>, key: string)
    requires text != "" && text[|text| - 1] == QUOTE && QUOTE !in key
    requires CharsHead(Inside(text) + after, key)
    ensures key <= text
  {
    if key == "" {
    } else {
      var items := Inside(text) + after;
      assert items[0] == Char(key[0]) && key[0] in key;
      InsideHead(text, after, key[0]);
      CharsHeadCons(items, key);
      assert |text| > 1;
      HeadOfInside(text[1..], after, key[1..]);
      PrefixCons(key, text);
    }
  }

  lemma KeyOfFour(s: string, d: char)
    requires IsDigit(d) && ['S', 'T', 'R', d] <= s
    ensures KeyHead(s)
  {
  }

  lemma InsideHeadQuiet(text: string, after: seq<Item>)
    requires text != "" && text[|text| - 1] == QUOTE && !KeyHead(text)
    ensures !SpellsAt(Inside(text) + after)
  {
    var items := Inside(text) + after;
    if SpellsAt(items) {
      HeadOfInside(text, after, ['S', 'T', 'R', items[3].c]);
      KeyOfFour(text, items[3].c);
    }
  }

  lemma InsideTail(text: string, after: seq<Item>)
    requires text != ""
    ensures var rest := if CAST <= text then text[2..] else text[1..];
            (Inside(text) + after)[1..] == Inside(rest) + after
  {
  }

  lemma NoKeyAfter(text: string, n: nat)
    requires n <= |text| && !HasKey(text) && (text != "" ==> text[|text| - 1] == QUOTE)
    ensures !HasKey(text[n..]) && (text[n..] != "" ==> text[n..][|text[n..]| - 1] == QUOTE)
  {
    NoKeyInParts(text, n);
  }

  lemma {:induction false} InsideQuiet(text: string, after: seq<Item>)
    requires (text != "" ==> text[|text| - 1] == QUOTE) && !HasKey(text) && !Spells(after)
    ensures !Spells(Inside(text) + after)
    decreases |text|
  {
    if text == "" {
      assert Inside(text) + after == after;
    } else {
      var n := if CAST <= text then 2 else 1;
      InsideHeadQuiet(text, after);
      InsideTail(text, after);
      NoKeyAfter(text, n);
      InsideQuiet(text[n..], after);
    }
  }

  /** No literal place hides a key either. */
  predicate Quiet(items: seq<Item>) {
    && !Spells(items)
    && forall p :: 0 <= p < |items| && items[p].LiteralPlace? ==>
         Quoted(items[p].text) && items[p].text[|items[p].text| - 1] == QUOTE && !HasKey(items[p].text)
  }

  lemma RevealHead(items: seq<Item>, i: nat)
    requires items != [] && (items[0].LiteralPlace? ==> Quoted(items[0].text))
    ensures Reveal(items, i) != []
    ensures items[0].LiteralPlace? && items[0].index == i ==> Reveal(items, i)[0] == Char(QUOTE)
  {
  }

  lemma {:induction false} HeadOfReveal(items: seq<Item>, i: nat, key: string)
    requires CharsHead(Reveal(items, i), key) && QUOTE !in key
    requires forall p :: 0 <= p < |items| && items[p].LiteralPlace? ==> Quoted(items[p].text)
    ensures CharsHead(items, key)
  {
    if key == "" {
    } else {
      var shown := Reveal(items, i);
      assert shown[0] == Char(key[0]) && key[0] in key;
      RevealHead(items, i);
      assert shown[1..] == Reveal(items[1..], i);
      CharsHeadCons(shown, key);
      HeadOfReveal(items[1..], i, key[1..]);
      CharsHeadCons(items, key);
    }
  }

  /** An item that stays opens no key after the step if it opened none before. */
  lemma HeadStaysQuiet(items: seq<Item>, i: nat)
    requires Quiet(items) && items != []
    requires !(items[0].LiteralPlace? && items[0].index == i)
    ensures !SpellsAt(Reveal(items, i))
  {
    var shown := Reveal(items, i);
    if SpellsAt(shown) {
      HeadOfReveal(items, i, ['S', 'T', 'R', shown[3].c]);
    }
  }

  lemma {:induction false} RevealQuiet(items: seq<Item>, i: nat)
    requires Quiet(items)
    ensures Quiet(Reveal(items, i))
  {
    if items == [] {
    } else {
      var rest := items[1..];
      RevealQuiet(rest, i);
      if items[0].LiteralPlace? && items[0].index == i {
        InsideShows(items[0].text);
        InsideQuiet(items[0].text, Reveal(rest, i));
      } else {
        HeadStaysQuiet(items, i);
        QuietCons(items[0], Reveal(rest, i));
      }
    }
  }

  lemma {:induction false} RevealBelowQuiet(items: seq<Item>, i: nat)
    requires Quiet(items)
    ensures Quiet(RevealBelow(items, i))
  {
    if i == 0 {
    } else {
      RevealBelowQuiet(items, i - 1);
      RevealQuiet(RevealBelow(items, i - 1), i - 1);
    }
  }

  lemma {:induction false} HasKeyInTail(s: string, a: nat)
    requires a <= |s| && HasKey(s[a..])
    ensures HasKey(s)
  {
    if a > 0 {
      assert s[1..][a - 1..] == s[a..];
      HasKeyInTail(s[1..], a - 1);
    } else {
      assert s[0..] == s;
    }
  }

  lemma {:induction false} HasKeyInHead(s: string, b: nat)
    requires b <= |s| && HasKey(s[..b])
    ensures HasKey(s)
  {
    if KeyHead(s[..b]) {
    } else {
      assert s[..b][1..] == s[1..][..b - 1];
      HasKeyInHead(s[1..], b - 1);
    }
  }

  lemma ItemsHead(toks: seq<Token>, n: nat, order: seq<string>)
    ensures toks != [] && toks[0].Named? ==> Items(toks, n, order) != [] && Items(toks, n, order)[0] == Char('$')
  {
  }

  lemma {:induction false} HeadOfItems(s: string, w: char -> bool, n: nat, order: seq<string>, key: string)
    requires '$' !in key && QUOTE !in key
    requires CharsHead(Items(Lex(s, w), n, order), key)
    ensures key <= s
  {
    if key == "" {
    } else {
      var toks := Lex(s, w);
      var items := Items(toks, n, order);
      assert items[0] == Char(key[0]) && key[0] in key;
      ItemsHead(toks, n, order);
      assert toks[0] == Plain(s[0]) && toks[1..] == Lex(s[1..], w);
      assert items[1..] == Items(toks[1..], n, order);
      CharsHeadCons(items, key);
      HeadOfItems(s[1..], w, n, order, key[1..]);
      PrefixCons(key, s);
    }
  }

  /** A number written by the scan spells no key. */
  lemma {:induction false} NumberQuiet(number: string, after: seq<Item>)
    requires 'S' !in number && !Spells(after)
    ensures !Spells(Chars(number) + after)
  {
    var items := Chars(number) + after;
    if number == "" {
      assert items == after;
    } else {
      assert items[0] == Char(number[0]) && number[0] in number;
      assert items[1..] == Chars(number[1..]) + after;
      NumberQuiet(number[1..], after);
    }
  }

  lemma QuietCons(item: Item, rest: seq<Item>)
    requires Quiet(rest) && !SpellsAt([item] + rest)
    requires item.LiteralPlace? ==>
               Quoted(item.text) && item.text[|item.text| - 1] == QUOTE && !HasKey(item.text)
    ensures Quiet([item] + rest)
  {
  }

  lemma NoKeyInParts(s: string, e: nat)
    requires e <= |s| && !HasKey(s)
    ensures !HasKey(s[..e]) && !HasKey(s[e..])
  {
    if HasKey(s[..e]) {
      HasKeyInHead(s, e);
    }
    if HasKey(s[e..]) {
      HasKeyInTail(s, e);
    }
  }

  lemma ItemsHeadQuiet(s: string, w: char -> bool, n: nat, order: seq<string>)
    requires !HasKey(s)
    ensures !SpellsAt(Items(Lex(s, w), n, order))
  {
    var items := Items(Lex(s, w), n, order);
    if SpellsAt(items) {
      HeadOfItems(s, w, n, order, ['S', 'T', 'R', items[3].c]);
      KeyOfFour(s, items[3].c);
    }
  }

  lemma {:induction false} ItemsQuiet(s: string, w: char -> bool, n: nat, order: seq<string>)
    requires NUL !in s && !HasKey(s)
    ensures Quiet(Items(Lex(s, w), n, order))
    decreases |s|
  {
    if s == "" {
    } else {
      var toks := Lex(s, w);
      ItemsHeadQuiet(s, w, n, order);
      var e := if StartsLiteral(s) then LiteralLength(s)
               else if CAST <= s then 2
               else if StartsName(s, w) then 1 + |NameAt(s, w)|
               else 1;
      NoKeyInParts(s, e);
      assert toks[1..] == Lex(s[e..], w);
      var n', o := if toks[0].Literal? then n + 1 else n, if toks[0].Named? then Meet(order, toks[0].name) else order;
      ItemsQuiet(s[e..], w, n', o);
      if toks[0].Named? {
        NumberStaysQuiet(order, toks[0].name, Items(toks[1..], n', o));
      } else if toks[0].Literal? {
        assert toks[0].text == s[..e];
        QuietCons(LiteralPlace(n, s[..e]), Items(toks[1..], n', o));
      } else {
        QuietCons(Items(toks, n, order)[0], Items(toks[1..], n', o));
      }
    }
  }

  lemma NumberStaysQuiet(order: seq<string>, x: string, after: seq<Item>)
    requires Quiet(after)
    ensures Quiet(Chars(Positional(order, x)) + after)
  {
    PositionalHasNoS(order, x);
    ShowChars(Positional(order, x));
    NumberQuiet(Positional(order, x), after);
  }

  lemma PositionalHasNoS(order: seq<string>, x: string)
    ensures 'S' !in Positional(order, x)
  {
  }

  /** A text in which no digit follows "STR" is never confusable, so the passes are exact on it. */
  lemma NoKeyNoConfusion(sql: string, w: char -> bool)
    requires WordClass(w) && NUL !in sql && !HasKey(sql)
    ensures !Confusable(sql, w)
    ensures Rewrite(sql, w) == (ScanText(Lex(sql, w), []), ScanOrder(Lex(sql, w), []))
  {
    var items := Items(Lex(sql, w), 0, []);
    ItemsQuiet(sql, w, 0, []);
    forall i: nat ensures !AmbiguousAtStep(items, i) {
      RevealBelowQuiet(items, i);
      if AmbiguousAtStep(items, i) {
        AmbiguousSpells(RevealBelow(items, i), i);
      }
    }
    RewriteMeetsScan(sql, w);
  }
}
