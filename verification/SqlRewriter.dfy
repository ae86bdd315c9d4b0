/**
 Named SQL parameters to positional ones: backend/db/connection.py and its twin
 control-plane/db/connection.py.  The source works in passes (hide `::`, hide quoted
 literals, number `:name`, put both back); the reference is one left-to-right scan.
 `w` stands for the regular expression class `\w`.
 */
module SqlRewriter {
  import opened Text

  const CAST: string := "::"
  const CAST_MARK: string := [NUL] + "CAST" + [NUL]

  function LiteralKey(i: nat): string { "STR" + Dec(i) }

  function LiteralMark(i: nat): string { [NUL] + LiteralKey(i) + [NUL] }

  /** `\w` matches neither the placeholders' NUL nor a colon, quote or dollar sign. */
  ghost predicate WordClass(w: char -> bool) {
    !w(NUL) && !w(':') && !w(QUOTE) && !w('$')
  }

  // ---------------------------------------------------------------- the two regular expressions

  /** How much `(?:''|[^'])*'` takes after an opening quote, with its backtracking. */
  function LiteralTail(t: string): (r: Option<nat>)
    ensures r.Some? ==> 1 <= r.value <= |t| && t[r.value - 1] == QUOTE
  {
    if t == "" then None
    else if t[0] != QUOTE then Shift(LiteralTail(t[1..]), 1)
    else if |t| > 1 && t[1] == QUOTE then
      match LiteralTail(t[2..])
      case Some(n) => Some(n + 2)
      case None => Some(1)
    else Some(1)
  }

  function Shift(r: Option<nat>, k: nat): Option<nat> {
    match r
    case Some(n) => Some(n + k)
    case None => None
  }

  predicate StartsLiteral(s: string) {
    s != "" && s[0] == QUOTE && LiteralTail(s[1..]).Some?
  }

  /** Length of the literal at the head of `s`, quotes included. */
  function LiteralLength(s: string): (n: nat)
    requires StartsLiteral(s)
    ensures 2 <= n <= |s| && s[n - 1] == QUOTE
  {
    1 + LiteralTail(s[1..]).value
  }

  /** How much `\w+` takes (0 when it does not match). */
  function WordLength(s: string, w: char -> bool): (n: nat)
    ensures n <= |s| && (forall k :: 0 <= k < n ==> w(s[k])) && (n < |s| ==> !w(s[n]))
  {
    if s != "" && w(s[0]) then 1 + WordLength(s[1..], w) else 0
  }

  predicate StartsName(s: string, w: char -> bool) {
    s != "" && s[0] == ':' && WordLength(s[1..], w) > 0
  }

  function NameAt(s: string, w: char -> bool): (x: string)
    requires StartsName(s, w)
    ensures x != "" && (forall c :: c in x ==> w(c)) && [':'] + x <= s
    ensures 1 + |x| < |s| ==> !w(s[1 + |x|])
  {
    s[1..][..WordLength(s[1..], w)]
  }

  // ---------------------------------------------------------------- the passes

  function MarkCasts(s: string): string { ReplaceAll(s, CAST, CAST_MARK) }

  /** `re.sub` with `_save_literal`, the n-th literal next: the text left and the literals saved. */
  function HideLiterals(t: string, n: nat): (string, seq<string>)
    decreases |t|
  {
    if t == "" then ("", [])
    else if StartsLiteral(t) then
      var e := LiteralLength(t);
      var r := HideLiterals(t[e..], n + 1);
      (LiteralMark(n) + r.0, [t[..e]] + r.1)
    else
      var r := HideLiterals(t[1..], n);
      ([t[0]] + r.0, r.1)
  }

  function IndexOf(order: seq<string>, x: string): (k: nat)
    requires x in order
    ensures k < |order| && order[k] == x && x !in order[..k]
  {
    if order[0] == x then 0 else 1 + IndexOf(order[1..], x)
  }

  /** `param_order` after meeting `x`. */
  function Meet(order: seq<string>, x: string): (o: seq<string>)
    ensures x in o && order <= o
  {
    if x in order then order else order + [x]
  }

  function Positional(order: seq<string>, x: string): string {
    "$" + Dec(IndexOf(Meet(order, x), x) + 1)
  }

  /** `re.sub` with `replacer`: the numbered text and the final `param_order`. */
  function NumberNames(t: string, order: seq<string>, w: char -> bool): (string, seq<string>)
    decreases |t|
  {
    if t == "" then ("", order)
    else if StartsName(t, w) then
      var x := NameAt(t, w);
      var r := NumberNames(t[1 + |x|..], Meet(order, x), w);
      (Positional(order, x) + r.0, r.1)
    else
      var r := NumberNames(t[1..], order, w);
      ([t[0]] + r.0, r.1)
  }

  function Restore(t: string, literals: seq<string>, i: nat): string
    requires i <= |literals|
    decreases |literals| - i
  {
    if i == |literals| then t
    else Restore(ReplaceAll(t, LiteralMark(i), literals[i]), literals, i + 1)
  }

  /** The whole pipeline: converted text and parameter names in order. */
  function Rewrite(sql: string, w: char -> bool): (string, seq<string>) {
    var hidden := HideLiterals(MarkCasts(sql), 0);
    var numbered := NumberNames(hidden.0, [], w);
    (ReplaceAll(Restore(numbered.0, hidden.1, 0), CAST_MARK, CAST), numbered.1)
  }

  // ---------------------------------------------------------------- the single scan

  datatype Token = Plain(c: char) | CastOp | Literal(text: string) | Named(name: string)

  function Lex(s: string, w: char -> bool): seq<Token>
    decreases |s|
  {
    if s == "" then []
    else if StartsLiteral(s) then [Literal(s[..LiteralLength(s)])] + Lex(s[LiteralLength(s)..], w)
    else if CAST <= s then [CastOp] + Lex(s[2..], w)
    else if StartsName(s, w) then [Named(NameAt(s, w))] + Lex(s[1 + |NameAt(s, w)|..], w)
    else [Plain(s[0])] + Lex(s[1..], w)
  }

  /** What one scan writes: literals and `::` verbatim, each `:name` as its number. */
  function ScanText(toks: seq<Token>, order: seq<string>): string {
    if toks == [] then ""
    else match toks[0]
      case Plain(c) => [c] + ScanText(toks[1..], order)
      case CastOp => CAST + ScanText(toks[1..], order)
      case Literal(text) => text + ScanText(toks[1..], order)
      case Named(x) => Positional(order, x) + ScanText(toks[1..], Meet(order, x))
  }

  function ScanOrder(toks: seq<Token>, order: seq<string>): (o: seq<string>)
    ensures order <= o
  {
    if toks == [] then order
    else if toks[0].Named? then ScanOrder(toks[1..], Meet(order, toks[0].name))
    else ScanOrder(toks[1..], order)
  }

  function Literals(toks: seq<Token>): seq<string> {
    if toks == [] then []
    else (if toks[0].Literal? then [toks[0].text] else []) + Literals(toks[1..])
  }

  // ---------------------------------------------------------------- text with placeholders in it

  /** The numbered text before anything is restored. */
  datatype Item = Char(c: char) | CastPlace | LiteralPlace(index: nat, text: string)

  function Chars(s: string): seq<Item> {
    if s == "" then [] else [Char(s[0])] + Chars(s[1..])
  }

  function Items(toks: seq<Token>, n: nat, order: seq<string>): seq<Item> {
    if toks == [] then []
    else match toks[0]
      case Plain(c) => [Char(c)] + Items(toks[1..], n, order)
      case CastOp => [CastPlace] + Items(toks[1..], n, order)
      case Literal(text) => [LiteralPlace(n, text)] + Items(toks[1..], n + 1, order)
      case Named(x) => Chars(Positional(order, x)) + Items(toks[1..], n, Meet(order, x))
  }

  /** The inside of a literal: only its `::` are still hidden. */
  function Inside(text: string): seq<Item>
    decreases |text|
  {
    if text == "" then []
    else if CAST <= text then [CastPlace] + Inside(text[2..])
    else [Char(text[0])] + Inside(text[1..])
  }

  function ShowOne(item: Item): string {
    match item
    case Char(c) => [c]
    case CastPlace => CAST_MARK
    case LiteralPlace(i, _) => LiteralMark(i)
  }

  function Show(items: seq<Item>): string {
    if items == [] then "" else ShowOne(items[0]) + Show(items[1..])
  }

  function MeaningOne(item: Item): string {
    match item
    case Char(c) => [c]
    case CastPlace => CAST
    case LiteralPlace(_, text) => text
  }

  /** What the items stand for. */
  function Meaning(items: seq<Item>): string {
    if items == [] then "" else MeaningOne(items[0]) + Meaning(items[1..])
  }

  /** The items once literal `i` is back in the text. */
  function Reveal(items: seq<Item>, i: nat): seq<Item> {
    if items == [] then []
    else if items[0].LiteralPlace? && items[0].index == i then Inside(items[0].text) + Reveal(items[1..], i)
    else [items[0]] + Reveal(items[1..], i)
  }

  function RevealBelow(items: seq<Item>, i: nat): seq<Item> {
    if i == 0 then items else Reveal(RevealBelow(items, i - 1), i - 1)
  }

  /** `key` is spelled by the first items and a placeholder follows it. */
  predicate Spelled(items: seq<Item>, key: string) {
    && |key| < |items|
    && (forall q :: 0 <= q < |key| ==> items[q] == Char(key[q]))
    && !items[|key|].Char?
  }

  /** Between two placeholders stands, by accident, the inside of literal i's placeholder. */
  predicate Ambiguous(items: seq<Item>, i: nat) {
    exists p :: 0 <= p < |items|
      && !items[p].Char?
      && !(items[p].LiteralPlace? && items[p].index == i)
      && Spelled(items[p + 1..], LiteralKey(i))
  }

  predicate AmbiguousAtStep(items: seq<Item>, i: nat) { Ambiguous(RevealBelow(items, i), i) }

  /** The exact obstacle: at some step the literal to restore is not the only match. */
  predicate Confusable(sql: string, w: char -> bool) {
    var toks := Lex(sql, w);
    exists i :: 0 <= i < |Literals(toks)| && AmbiguousAtStep(Items(toks, 0, []), i)
  }
}
