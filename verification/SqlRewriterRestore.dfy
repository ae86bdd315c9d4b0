/** Putting literals and casts back: when it is exact, and what is left when it is not. */
module SqlRewriterRestore {
  import opened Text
  import opened SqlRewriter
  import opened SqlRewriterProofs

  predicate Clean(items: seq<Item>) {
    forall p :: 0 <= p < |items| ==> (items[p].Char? ==> items[p].c != NUL)
  }

  /** A quote with an odd number of NULs before it: some placeholder was torn. */
  predicate Broken(s: string) {
    exists p :: 0 <= p < |s| && TornAt(s, p)
  }

  predicate TornAt(s: string, p: nat)
    requires p < |s|
  {
    s[p] == QUOTE && OddNuls(s[..p])
  }

  lemma BrokenHasNul(s: string)
    requires Broken(s)
    ensures NUL in s
  {
    var p :| 0 <= p < |s| && TornAt(s, p);
    if NUL !in s {
      NoNulIsEven(s[..p]);
    }
  }

  lemma BrokenAfter(a: string, s: string)
    requires Broken(s) && !OddNuls(a)
    ensures Broken(a + s)
  {
    var p :| 0 <= p < |s| && TornAt(s, p);
    var t, q := a + s, |a| + p;
    OddNulsAppend(a, s[..p]);
    assert t[..q] == a + s[..p];
    assert TornAt(t, q);
  }

  /** No later replacement repairs the damage. */
  lemma BrokenStays(s: string, pat: string, rep: string)
    requires Broken(s) && pat != "" && QUOTE !in pat
    requires !OddNuls(pat) && !OddNuls(rep)
    ensures Broken(ReplaceAll(s, pat, rep))
  {
    var p :| 0 <= p < |s| && TornAt(s, p);
    var u, v := s[..p], s[p + 1..];
    assert s == u + [QUOTE] + v;
    ReplaceSplit(u, QUOTE, v, pat, rep);
    ReplaceKeepsParity(u, pat, rep);
    var u' := ReplaceAll(u, pat, rep);
    var t := u' + [QUOTE] + ReplaceAll(v, pat, rep);
    assert t[..|u'|] == u';
    assert TornAt(t, |u'|);
  }

  // ---------------------------------------------------------------- marks and keys

  lemma KeyFacts(i: nat)
    ensures NUL !in LiteralKey(i) && QUOTE !in LiteralKey(i) && ':' !in LiteralKey(i)
    ensures LiteralKey(i) != "CAST" && LiteralKey(i) != ""
    ensures forall j :: j != i ==> LiteralKey(j) != LiteralKey(i)
  {
    forall c | c in LiteralKey(i) ensures c != NUL && c != QUOTE && c != ':' {
      if c !in "STR" {
        assert c in Dec(i);
        assert IsDigit(c);
      }
    }
    assert LiteralKey(i)[0] == 'S';
    forall j: nat | LiteralKey(j) == LiteralKey(i) ensures j == i {
      assert LiteralKey(i)[3..] == Dec(i) && LiteralKey(j)[3..] == Dec(j);
      DecInjective(i, j);
    }
  }

  lemma MarkIsEven(key: string)
    requires NUL !in key
    ensures !OddNuls([NUL] + key + [NUL])
  {
    NoNulIsEven(key);
    assert [NUL] + key + [NUL] == [NUL] + (key + [NUL]);
    OddNulsAppend([NUL], key + [NUL]);
    OddNulsAppend(key, [NUL]);
    assert OddNuls([NUL]);
  }

  /** A placeholder matches at a placeholder only when the keys agree. */
  lemma MarkAtMark(key: string, body: string, x: string)
    requires NUL !in key && NUL !in body
    ensures [NUL] + key + [NUL] <= [NUL] + body + [NUL] + x <==> key == body
  {
    var a, b := [NUL] + key + [NUL], [NUL] + body + [NUL] + x;
    if a <= b {
      assert forall k :: 0 <= k < |key| ==> a[k + 1] == key[k] && key[k] in key;
      assert forall k :: 0 <= k < |body| ==> b[k + 1] == body[k] && body[k] in body;
      assert a[|key| + 1] == NUL && b[|body| + 1] == NUL;
      assert a[|key| + 1] == b[|key| + 1];
      assert |key| == |body|;
      assert forall k :: 0 <= k < |key| ==> key[k] == a[k + 1] == b[k + 1] == body[k];
    }
  }

  /** A key closed by a NUL heads the text exactly when the items spell it. */
  lemma {:induction false} KeyAtItems(key: string, items: seq<Item>)
    requires NUL !in key && Clean(items)
    ensures key + [NUL] <= Show(items) <==> Spelled(items, key)
    decreases |key|
  {
    var t := Show(items);
    var k := key + [NUL];
    if items == [] {
    } else if key == "" {
      assert k[0] == NUL;
    } else if !items[0].Char? {
      assert k[0] == key[0] && key[0] in key;
      assert t[0] == NUL;
    } else {
      KeyAtItems(key[1..], items[1..]);
      assert t == [items[0].c] + Show(items[1..]);
      assert t[1..] == Show(items[1..]);
      assert k == [key[0]] + (key[1..] + [NUL]);
      assert k[1..] == key[1..] + [NUL];
      PrefixCons(k, t);
      assert Spelled(items, key) <==> items[0] == Char(key[0]) && Spelled(items[1..], key[1..]) by {
        if items[0] == Char(key[0]) && Spelled(items[1..], key[1..]) {
          forall q | 0 <= q < |key| ensures items[q] == Char(key[q]) {
            if q > 0 {
              assert items[1..][q - 1] == Char(key[1..][q - 1]);
            }
          }
        }
        if Spelled(items, key) {
          forall q | 0 <= q < |key[1..]| ensures items[1..][q] == Char(key[1..][q]) {
            assert items[q + 1] == Char(key[q + 1]);
          }
        }
      }
    }
  }

  predicate HitsHead(items: seq<Item>, i: nat)
    requires items != []
  {
    && !items[0].Char?
    && !(items[0].LiteralPlace? && items[0].index == i)
    && Spelled(items[1..], LiteralKey(i))
  }

  lemma AmbiguousStep(items: seq<Item>, i: nat)
    requires items != []
    ensures Ambiguous(items, i) <==> HitsHead(items, i) || Ambiguous(items[1..], i)
  {
  }

  // ---------------------------------------------------------------- one restoring step

  function KeyOf(item: Item): string
    requires !item.Char?
  {
    if item.CastPlace? then "CAST" else LiteralKey(item.index)
  }

  predicate Carries(items: seq<Item>, i: nat, text: string) {
    forall p :: 0 <= p < |items| ==> (items[p].LiteralPlace? && items[p].index == i ==> items[p].text == text)
  }

  /** The replacement copies a placeholder with another key, up to its closing NUL. */
  lemma CopyMark(key: string, body: string, x: string, rep: string)
    requires NUL !in key && NUL !in body && key != body
    ensures var pat := [NUL] + key + [NUL];
            ReplaceAll([NUL] + body + [NUL] + x, pat, rep) == [NUL] + body + ReplaceAll([NUL] + x, pat, rep)
  {
    var pat := [NUL] + key + [NUL];
    var s := [NUL] + body + [NUL] + x;
    MarkAtMark(key, body, x);
    assert s[1..] == body + ([NUL] + x);
    assert pat[0] == NUL;
    ReplaceSkip(body, [NUL] + x, pat, rep);
    assert [NUL] + (body + ReplaceAll([NUL] + x, pat, rep)) == [NUL] + body + ReplaceAll([NUL] + x, pat, rep);
  }

  /** At a placeholder's closing NUL: a match there is a false one. */
  lemma ClosingNul(key: string, items: seq<Item>, rep: string)
    requires NUL !in key && Clean(items)
    ensures var pat := [NUL] + key + [NUL];
            var tail := ReplaceAll([NUL] + Show(items), pat, rep);
            if Spelled(items, key) then rep <= tail else tail == [NUL] + ReplaceAll(Show(items), pat, rep)
  {
    var pat, x := [NUL] + key + [NUL], Show(items);
    var s := [NUL] + x;
    KeyAtItems(key, items);
    assert pat[1..] == key + [NUL] && s[1..] == x;
    PrefixCons(pat, s);
  }

  lemma TornMark(body: string, rep: string, more: string)
    requires NUL !in body && rep != "" && rep[0] == QUOTE && rep <= more
    ensures Broken([NUL] + body + more)
  {
    var after := [NUL] + body + more;
    var p := 1 + |body|;
    assert after[..p] == [NUL] + body;
    OddNulsAppend([NUL], body);
    NoNulIsEven(body);
    assert OddNuls([NUL]);
    assert TornAt(after, p);
  }

  /** A placeholder with another key survives, unless its closing NUL opens a false match. */
  lemma StepAtOther(key: string, body: string, rest: seq<Item>, rep: string)
    requires NUL !in key && NUL !in body && key != body && Clean(rest)
    requires rep != "" && rep[0] == QUOTE
    ensures var pat := [NUL] + key + [NUL];
            var after := ReplaceAll([NUL] + body + [NUL] + Show(rest), pat, rep);
            if Spelled(rest, key) then Broken(after)
            else after == [NUL] + body + [NUL] + ReplaceAll(Show(rest), pat, rep)
  {
    var pat := [NUL] + key + [NUL];
    CopyMark(key, body, Show(rest), rep);
    ClosingNul(key, rest, rep);
    var tail := ReplaceAll([NUL] + Show(rest), pat, rep);
    if Spelled(rest, key) {
      TornMark(body, rep, tail);
    } else {
      Regroup([NUL] + body, [NUL], ReplaceAll(Show(rest), pat, rep));
    }
  }

  lemma {:induction false} InsideShows(text: string)
    ensures Show(Inside(text)) == MarkCasts(text) && Meaning(Inside(text)) == text
    ensures NUL !in text ==> Clean(Inside(text))
    ensures forall p :: 0 <= p < |Inside(text)| ==> !Inside(text)[p].LiteralPlace?
    decreases |text|
  {
    if text == "" {
    } else if CAST <= text {
      InsideShows(text[2..]);
      assert CAST + text[2..] == text;
    } else {
      InsideShows(text[1..]);
      assert [text[0]] + text[1..] == text;
    }
  }

  lemma InsideEven(text: string)
    requires NUL !in text
    ensures !OddNuls(MarkCasts(text))
  {
    NoNulIsEven(text);
    NoNulIsEven(CAST);
    MarkIsEven("CAST");
    ReplaceKeepsParity(text, CAST, CAST_MARK);
  }

  /** Restoring literal i is exact when nothing is mistaken for it, and breaks the text otherwise. */
  predicate StepHolds(items: seq<Item>, i: nat, text: string) {
    var after := ReplaceAll(Show(items), LiteralMark(i), MarkCasts(text));
    if Ambiguous(items, i) then Broken(after) else after == Show(Reveal(items, i))
  }

  lemma StepAtChar(items: seq<Item>, i: nat, text: string)
    requires items != [] && items[0].Char? && items[0].c != NUL && StepHolds(items[1..], i, text)
    ensures StepHolds(items, i, text)
  {
    var rest, c := items[1..], items[0].c;
    AmbiguousStep(items, i);
    assert LiteralMark(i)[0] == NUL;
    assert Show(items) == [c] + Show(rest);
    ReplaceSkip([c], Show(rest), LiteralMark(i), MarkCasts(text));
    if Ambiguous(rest, i) {
      BrokenAfter([c], ReplaceAll(Show(rest), LiteralMark(i), MarkCasts(text)));
    }
  }

  lemma StepAtSelf(items: seq<Item>, i: nat, text: string)
    requires items != [] && items[0] == LiteralPlace(i, text) && NUL !in text
    requires StepHolds(items[1..], i, text)
    ensures StepHolds(items, i, text)
  {
    var rest := items[1..];
    AmbiguousStep(items, i);
    assert Show(items) == LiteralMark(i) + Show(rest);
    ReplaceHit(Show(rest), LiteralMark(i), MarkCasts(text));
    InsideShows(text);
    ShowAppend(Inside(text), Reveal(rest, i));
    if Ambiguous(rest, i) {
      InsideEven(text);
      BrokenAfter(MarkCasts(text), ReplaceAll(Show(rest), LiteralMark(i), MarkCasts(text)));
    }
  }

  lemma KeysDiffer(item: Item, i: nat)
    requires !item.Char? && !(item.LiteralPlace? && item.index == i)
    ensures NUL !in KeyOf(item) && KeyOf(item) != LiteralKey(i) && NUL !in LiteralKey(i)
  {
    KeyFacts(i);
    if item.LiteralPlace? {
      KeyFacts(item.index);
    }
  }

  lemma StepAtMark(items: seq<Item>, i: nat, text: string)
    requires items != [] && !items[0].Char? && !(items[0].LiteralPlace? && items[0].index == i)
    requires Clean(items[1..]) && text != "" && text[0] == QUOTE
    requires StepHolds(items[1..], i, text)
    ensures StepHolds(items, i, text)
  {
    var rest, body := items[1..], KeyOf(items[0]);
    var mark := [NUL] + body + [NUL];
    AmbiguousStep(items, i);
    KeysDiffer(items[0], i);
    MarkCastsHead(text);
    StepAtOther(LiteralKey(i), body, rest, MarkCasts(text));
    assert Show(items) == mark + Show(rest);
    assert Show(Reveal(items, i)) == mark + Show(Reveal(rest, i));
    MarkIsEven(body);
    if Ambiguous(rest, i) && !HitsHead(items, i) {
      BrokenAfter(mark, ReplaceAll(Show(rest), LiteralMark(i), MarkCasts(text)));
    }
  }

  lemma {:induction false} RestoreStep(items: seq<Item>, i: nat, text: string)
    requires Clean(items) && Carries(items, i, text)
    requires text != "" && text[0] == QUOTE && NUL !in text
    ensures StepHolds(items, i, text)
  {
    if items == [] {
    } else {
      RestoreStep(items[1..], i, text);
      if items[0].Char? {
        StepAtChar(items, i, text);
      } else if items[0].LiteralPlace? && items[0].index == i {
        StepAtSelf(items, i, text);
      } else {
        StepAtMark(items, i, text);
      }
    }
  }

  // ---------------------------------------------------------------- all the steps

  predicate Quoted(text: string) { text != "" && text[0] == QUOTE && NUL !in text }

  /** Every place holds the literal of its number. */
  predicate Sound(items: seq<Item>, literals: seq<string>) {
    && Clean(items)
    && (forall k :: 0 <= k < |literals| ==> Quoted(literals[k]))
    && forall p :: 0 <= p < |items| && items[p].LiteralPlace? ==>
         items[p].index < |literals| && items[p].text == literals[items[p].index]
  }

  predicate From(items: seq<Item>, i: nat) {
    forall p :: 0 <= p < |items| && items[p].LiteralPlace? ==> i <= items[p].index
  }

  predicate Fits(item: Item, literals: seq<string>, i: nat) {
    match item
    case Char(c) => c != NUL
    case CastPlace => true
    case LiteralPlace(index, text) => i <= index < |literals| && text == literals[index]
  }

  lemma SoundFits(items: seq<Item>, literals: seq<string>, i: nat)
    requires forall k :: 0 <= k < |literals| ==> Quoted(literals[k])
    ensures Sound(items, literals) && From(items, i) <==> forall p :: 0 <= p < |items| ==> Fits(items[p], literals, i)
  {
    if forall p :: 0 <= p < |items| ==> Fits(items[p], literals, i) {
      forall p | 0 <= p < |items| && items[p].LiteralPlace?
        ensures i <= items[p].index < |literals| && items[p].text == literals[items[p].index]
      {
        assert Fits(items[p], literals, i);
      }
      forall p | 0 <= p < |items| && items[p].Char? ensures items[p].c != NUL {
        assert Fits(items[p], literals, i);
      }
    }
  }

  lemma InsideFits(text: string, literals: seq<string>, i: nat)
    requires NUL !in text
    ensures forall p :: 0 <= p < |Inside(text)| ==> Fits(Inside(text)[p], literals, i)
  {
    InsideShows(text);
  }

  lemma {:induction false} RevealFits(items: seq<Item>, literals: seq<string>, i: nat)
    requires forall k :: 0 <= k < |literals| ==> Quoted(literals[k])
    requires forall p :: 0 <= p < |items| ==> Fits(items[p], literals, i)
    ensures forall p :: 0 <= p < |Reveal(items, i)| ==> Fits(Reveal(items, i)[p], literals, i + 1)
  {
    if items == [] {
    } else {
      RevealFits(items[1..], literals, i);
      if items[0].LiteralPlace? && items[0].index == i {
        InsideFits(items[0].text, literals, i + 1);
      }
    }
  }

  lemma {:induction false} RevealMeans(items: seq<Item>, i: nat)
    ensures Meaning(Reveal(items, i)) == Meaning(items)
  {
    if items == [] {
    } else {
      RevealMeans(items[1..], i);
      if items[0].LiteralPlace? && items[0].index == i {
        InsideShows(items[0].text);
        MeaningAppend(Inside(items[0].text), Reveal(items[1..], i));
      }
    }
  }

  lemma RevealBelowNext(items: seq<Item>, i: nat)
    requires i > 0
    ensures RevealBelow(items, i) == Reveal(RevealBelow(items, i - 1), i - 1)
  {
  }

  lemma {:induction false} RevealBelowFits(items: seq<Item>, literals: seq<string>, i: nat)
    requires forall k :: 0 <= k < |literals| ==> Quoted(literals[k])
    requires forall p :: 0 <= p < |items| ==> Fits(items[p], literals, 0)
    ensures forall p :: 0 <= p < |RevealBelow(items, i)| ==> Fits(RevealBelow(items, i)[p], literals, i)
  {
    if i == 0 {
    } else {
      RevealBelowFits(items, literals, i - 1);
      RevealFits(RevealBelow(items, i - 1), literals, i - 1);
      RevealBelowNext(items, i);
    }
  }

  lemma {:induction false} RevealBelowMeans(items: seq<Item>, i: nat)
    ensures Meaning(RevealBelow(items, i)) == Meaning(items)
  {
    if i == 0 {
    } else {
      RevealBelowMeans(items, i - 1);
      RevealMeans(RevealBelow(items, i - 1), i - 1);
      RevealBelowNext(items, i);
    }
  }

  lemma RevealBelowFacts(items: seq<Item>, literals: seq<string>, i: nat)
    requires Sound(items, literals)
    ensures Sound(RevealBelow(items, i), literals) && From(RevealBelow(items, i), i)
    ensures Meaning(RevealBelow(items, i)) == Meaning(items)
  {
    SoundFits(items, literals, 0);
    RevealBelowFits(items, literals, i);
    SoundFits(RevealBelow(items, i), literals, i);
    RevealBelowMeans(items, i);
  }

  lemma {:induction false} MarkAllAt(literals: seq<string>)
    ensures |MarkAll(literals)| == |literals|
    ensures forall k :: 0 <= k < |literals| ==> MarkAll(literals)[k] == MarkCasts(literals[k])
  {
    if literals == [] {
    } else {
      MarkAllAt(literals[1..]);
    }
  }

  lemma LiteralMarkFacts(i: nat)
    ensures QUOTE !in LiteralMark(i) && !OddNuls(LiteralMark(i))
  {
    KeyFacts(i);
    MarkIsEven(LiteralKey(i));
  }

  lemma {:induction false} RestoreBroken(t: string, literals: seq<string>, i: nat)
    requires Broken(t) && i <= |literals|
    requires forall k :: 0 <= k < |literals| ==> Quoted(literals[k])
    ensures |MarkAll(literals)| == |literals| && Broken(Restore(t, MarkAll(literals), i))
    decreases |literals| - i
  {
    MarkAllAt(literals);
    if i == |literals| {
    } else {
      InsideEven(literals[i]);
      LiteralMarkFacts(i);
      BrokenStays(t, LiteralMark(i), MarkCasts(literals[i]));
      RestoreBroken(ReplaceAll(t, LiteralMark(i), MarkCasts(literals[i])), literals, i + 1);
    }
  }

  predicate AmbiguousLater(items: seq<Item>, total: nat, i: nat) {
    exists k :: i <= k < total && AmbiguousAtStep(items, k)
  }

  lemma AmbiguousLaterStep(items: seq<Item>, total: nat, i: nat)
    requires i < total
    ensures AmbiguousLater(items, total, i) <==> AmbiguousAtStep(items, i) || AmbiguousLater(items, total, i + 1)
  {
  }

  /** How the remaining steps end: exactly when none is ambiguous. */
  predicate Restored(items: seq<Item>, total: nat, t: string, i: nat) {
    if AmbiguousLater(items, total, i) then Broken(t) else t == Show(RevealBelow(items, total))
  }

  lemma RestoreUnfolds(t: string, literals: seq<string>, i: nat)
    requires i < |literals|
    ensures Restore(t, literals, i) == Restore(ReplaceAll(t, LiteralMark(i), literals[i]), literals, i + 1)
  {
  }

  lemma {:induction false} RestoreFrom(items: seq<Item>, literals: seq<string>, marked: seq<string>, i: nat)
    requires Sound(items, literals) && i <= |literals| && marked == MarkAll(literals)
    ensures |marked| == |literals|
    ensures Restored(items, |literals|, Restore(Show(RevealBelow(items, i)), marked, i), i)
    decreases |literals| - i
  {
    MarkAllAt(literals);
    if i == |literals| {
    } else {
      var shown := Show(RevealBelow(items, i));
      RestoreUnfolds(shown, marked, i);
      RevealBelowFacts(items, literals, i);
      RestoreOne(items, literals, i);
      AmbiguousLaterStep(items, |literals|, i);
      if AmbiguousAtStep(items, i) {
        RestoreBroken(ReplaceAll(shown, LiteralMark(i), marked[i]), literals, i + 1);
      } else {
        RestoreFrom(items, literals, marked, i + 1);
      }
    }
  }

  lemma RestoreOne(items: seq<Item>, literals: seq<string>, i: nat)
    requires Sound(RevealBelow(items, i), literals) && i < |literals|
    ensures var after := ReplaceAll(Show(RevealBelow(items, i)), LiteralMark(i), MarkCasts(literals[i]));
            if AmbiguousAtStep(items, i) then Broken(after) else after == Show(RevealBelow(items, i + 1))
  {
    var now := RevealBelow(items, i);
    assert Quoted(literals[i]) && Carries(now, i, literals[i]);
    RestoreStep(now, i, literals[i]);
    assert RevealBelow(items, i + 1) == Reveal(now, i);
  }

  /** With no literal hidden, restoring the casts never errs. */
  lemma {:induction false} CastsBack(items: seq<Item>)
    requires Clean(items) && forall p :: 0 <= p < |items| ==> !items[p].LiteralPlace?
    ensures ReplaceAll(Show(items), CAST_MARK, CAST) == Meaning(items)
  {
    if items == [] {
    } else {
      CastsBack(items[1..]);
      if items[0].Char? {
        assert CAST_MARK[0] == NUL;
        ReplaceSkip([items[0].c], Show(items[1..]), CAST_MARK, CAST);
      } else {
        ReplaceHit(Show(items[1..]), CAST_MARK, CAST);
      }
    }
  }

  // ---------------------------------------------------------------- the theorem

  lemma PositionalFacts(order: seq<string>, x: string)
    ensures NUL !in Positional(order, x)
  {
  }

  lemma {:induction false} ItemsMean(toks: seq<Token>, n: nat, order: seq<string>)
    ensures Meaning(Items(toks, n, order)) == ScanText(toks, order)
  {
    if toks == [] {
    } else {
      if toks[0].Named? {
        var x := toks[0].name;
        ItemsMean(toks[1..], n, Meet(order, x));
        ShowChars(Positional(order, x));
        MeaningAppend(Chars(Positional(order, x)), Items(toks[1..], n, Meet(order, x)));
      } else {
        ItemsMean(toks[1..], if toks[0].Literal? then n + 1 else n, order);
      }
    }
  }

  lemma SoundAppend(a: seq<Item>, b: seq<Item>, all: seq<string>)
    requires Sound(a, all) && Sound(b, all)
    ensures Sound(a + b, all)
  {
  }

  predicate TokenSound(tok: Token) {
    match tok
    case Plain(c) => c != NUL
    case CastOp => true
    case Literal(text) => Quoted(text)
    case Named(_) => true
  }

  lemma {:induction false} ItemsSound(toks: seq<Token>, n: nat, order: seq<string>, all: seq<string>)
    requires forall k :: 0 <= k < |toks| ==> TokenSound(toks[k])
    requires n <= |all| && all[n..] == Literals(toks)
    requires forall k :: 0 <= k < |all| ==> Quoted(all[k])
    ensures Sound(Items(toks, n, order), all)
  {
    if toks == [] {
    } else {
      assert TokenSound(toks[0]);
      var rest := toks[1..];
      match toks[0]
      case Plain(c) =>
        ItemsSound(rest, n, order, all);
        SoundAppend([Char(c)], Items(rest, n, order), all);
      case CastOp =>
        ItemsSound(rest, n, order, all);
        SoundAppend([CastPlace], Items(rest, n, order), all);
      case Literal(text) =>
        assert Literals(toks) == [text] + Literals(rest);
        assert all[n] == all[n..][0] == text;
        assert all[n + 1..] == all[n..][1..];
        ItemsSound(rest, n + 1, order, all);
        SoundAppend([LiteralPlace(n, text)], Items(rest, n + 1, order), all);
      case Named(x) =>
        ItemsSound(rest, n, Meet(order, x), all);
        PositionalFacts(order, x);
        ShowChars(Positional(order, x));
        SoundAppend(Chars(Positional(order, x)), Items(rest, n, Meet(order, x)), all);
    }
  }

  lemma {:induction false} ScanHasNoNul(toks: seq<Token>, order: seq<string>)
    requires forall k :: 0 <= k < |toks| ==> TokenSound(toks[k])
    ensures NUL !in ScanText(toks, order)
  {
    if toks == [] {
    } else {
      assert TokenSound(toks[0]);
      if toks[0].Named? {
        PositionalFacts(order, toks[0].name);
        ScanHasNoNul(toks[1..], Meet(order, toks[0].name));
      } else {
        ScanHasNoNul(toks[1..], order);
      }
    }
  }

  lemma {:induction false} LexSound(s: string, w: char -> bool)
    requires NUL !in s
    ensures forall k :: 0 <= k < |Lex(s, w)| ==> TokenSound(Lex(s, w)[k])
    decreases |s|
  {
    if s == "" {
    } else {
      var rest := if StartsLiteral(s) then s[LiteralLength(s)..]
                  else if CAST <= s then s[2..]
                  else if StartsName(s, w) then s[1 + |NameAt(s, w)|..]
                  else s[1..];
      LexSound(rest, w);
      assert Lex(s, w) == [Lex(s, w)[0]] + Lex(rest, w);
      assert TokenSound(Lex(s, w)[0]);
    }
  }

  lemma {:induction false} LiteralsSound(toks: seq<Token>)
    requires forall k :: 0 <= k < |toks| ==> TokenSound(toks[k])
    ensures forall k :: 0 <= k < |Literals(toks)| ==> Quoted(Literals(toks)[k])
  {
    if toks == [] {
    } else {
      assert TokenSound(toks[0]);
      LiteralsSound(toks[1..]);
    }
  }

  /**
   The passes equal the single scan exactly when the text is not confusable; the parameter
   order is the scan's in every case.
   */
  lemma RewriteMeetsScan(sql: string, w: char -> bool)
    requires WordClass(w) && NUL !in sql
    ensures Rewrite(sql, w).1 == ScanOrder(Lex(sql, w), [])
    ensures Rewrite(sql, w).0 == ScanText(Lex(sql, w), []) <==> !Confusable(sql, w)
    ensures Confusable(sql, w) ==> NUL in Rewrite(sql, w).0
  {
    var toks := Lex(sql, w);
    var items, literals := Items(toks, 0, []), Literals(toks);
    PassesReachItems(sql, 0, [], w);
    LexSound(sql, w);
    LiteralsSound(toks);
    assert literals[0..] == literals;
    ItemsSound(toks, 0, [], literals);
    RestoreFrom(items, literals, MarkAll(literals), 0);
    var t := Restore(Show(items), MarkAll(literals), 0);
    assert Rewrite(sql, w).0 == ReplaceAll(t, CAST_MARK, CAST);
    if Confusable(sql, w) {
      assert AmbiguousLater(items, |literals|, 0);
      TornStaysTorn(t);
      ScanHasNoNul(toks, []);
    } else {
      assert !AmbiguousLater(items, |literals|, 0);
      RevealBelowFacts(items, literals, |literals|);
      CastsBack(RevealBelow(items, |literals|));
      ItemsMean(toks, 0, []);
    }
  }

  lemma TornStaysTorn(t: string)
    requires Broken(t)
    ensures NUL in ReplaceAll(t, CAST_MARK, CAST)
  {
    MarkIsEven("CAST");
    NoNulIsEven(CAST);
    BrokenStays(t, CAST_MARK, CAST);
    BrokenHasNul(ReplaceAll(t, CAST_MARK, CAST));
  }
}
