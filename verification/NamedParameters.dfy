/**
 `_named_to_positional` as the two connection modules run it, on their own mutable lists.
 Values are abstract; the coercion of date texts is not modelled.
 */
module NamedParameters {
  import opened Text
  import opened SqlRewriter
  import opened SqlRewriterMeaning
  import opened SqlRewriterServer

  /** The first required name the dictionary lacks, if any. */
  function FirstMissing<V>(order: seq<string>, params: map<string, V>): (r: Option<string>)
    ensures r.None? <==> forall x :: x in order ==> x in params
    ensures r.Some? ==> exists k :: 0 <= k < |order| && order[k] == r.value && r.value !in params
                                    && forall j :: 0 <= j < k ==> order[j] in params
  {
    if order == [] then None
    else if order[0] !in params then Some(order[0])
    else
      var r := FirstMissing(order[1..], params);
      assert r.Some? ==> exists k :: 0 <= k < |order[1..]| && order[1..][k] == r.value && r.value !in params
                           && forall j :: 0 <= j < k ==> order[1..][j] in params;
      assert r.Some? ==> exists k :: 0 <= k < |order| && order[k] == r.value && r.value !in params
                           && forall j :: 0 <= j < k ==> order[j] in params by {
        if r.Some? {
          var k :| 0 <= k < |order[1..]| && order[1..][k] == r.value && r.value !in params
                   && forall j :: 0 <= j < k ==> order[1..][j] in params;
          forall j | 0 <= j < k + 1 ensures order[j] in params {
            if j > 0 {
              assert order[1..][j - 1] in params;
            }
          }
          assert order[k + 1] == r.value;
        }
      }
      r
  }

  /** What a call must return: the rewritten text with one value a name, or the missing name. */
  ghost predicate Answers<V>(r: Result<(string, seq<V>), string>, sql: string, params: map<string, V>, w: char -> bool) {
    var order := Rewrite(sql, w).1;
    match FirstMissing(order, params)
    case Some(x) => r == Failure(x)
    case None =>
      && r.Success?
      && r.value.0 == Rewrite(sql, w).0
      && |r.value.1| == |order|
      && forall k :: 0 <= k < |order| ==> r.value.1[k] == params[order[k]]
  }

  /** `re.sub` with `_save_literal`, which appends to `string_literals`. */
  method SaveLiterals(t: string) returns (text: string, literals: seq<string>)
    ensures (text, literals) == HideLiterals(t, 0)
  {
    text, literals := "", [];
    var rest := t;
    while rest != ""
      invariant text + HideLiterals(rest, |literals|).0 == HideLiterals(t, 0).0
      invariant literals + HideLiterals(rest, |literals|).1 == HideLiterals(t, 0).1
      decreases |rest|
    {
      var tail := HideLiterals(rest, |literals|);
      if StartsLiteral(rest) {
        var e := LiteralLength(rest);
        var mark := LiteralMark(|literals|);
        assert text + tail.0 == (text + mark) + HideLiterals(rest[e..], |literals| + 1).0;
        assert literals + tail.1 == (literals + [rest[..e]]) + HideLiterals(rest[e..], |literals| + 1).1;
        text, literals, rest := text + mark, literals + [rest[..e]], rest[e..];
      } else {
        assert text + tail.0 == (text + [rest[0]]) + HideLiterals(rest[1..], |literals|).0;
        text, rest := text + [rest[0]], rest[1..];
      }
    }
    assert text + "" == text && literals + [] == literals;
  }

  /** `re.sub` with `replacer`, which appends to `param_order`. */
  method NumberParameters(t: string, w: char -> bool) returns (text: string, order: seq<string>)
    ensures (text, order) == NumberNames(t, [], w)
  {
    text, order := "", [];
    var rest := t;
    while rest != ""
      invariant text + NumberNames(rest, order, w).0 == NumberNames(t, [], w).0
      invariant NumberNames(rest, order, w).1 == NumberNames(t, [], w).1
      decreases |rest|
    {
      var written;
      if StartsName(rest, w) {
        var x := NameAt(rest, w);
        written := Positional(order, x);
        Regroup(text, written, NumberNames(rest[1 + |x|..], Meet(order, x), w).0);
        rest := rest[1 + |x|..];
        if x !in order {
          order := order + [x];
        }
      } else {
        written := [rest[0]];
        Regroup(text, written, NumberNames(rest[1..], order, w).0);
        rest := rest[1..];
      }
      text := text + written;
    }
    assert text + "" == text;
  }

  method RestoreAll(t: string, literals: seq<string>) returns (text: string)
    ensures text == ReplaceAll(Restore(t, literals, 0), CAST_MARK, CAST)
  {
    text := t;
    for i := 0 to |literals|
      invariant Restore(text, literals, i) == Restore(t, literals, 0)
    {
      text := ReplaceAll(text, LiteralMark(i), literals[i]);
    }
    text := ReplaceAll(text, CAST_MARK, CAST);
  }

  /** backend/db/connection.py: the arguments are looked up together, first missing name reported. */
  method NamedToPositional<V>(sql: string, params: map<string, V>, w: char -> bool)
    returns (r: Result<(string, seq<V>), string>)
    ensures Answers(r, sql, params, w)
  {
    var hidden, literals := SaveLiterals(MarkCasts(sql));
    var numbered, order := NumberParameters(hidden, w);
    var converted := RestoreAll(numbered, literals);
    match FirstMissing(order, params)
    case Some(x) => r := Failure(x);
    case None =>
      forall k | 0 <= k < |order| ensures order[k] in params { assert order[k] in order; }
      var args := seq(|order|, k requires 0 <= k < |order| => params[order[k]]);
      r := Success((converted, args));
  }

  /** control-plane/db/connection.py: the same passes, the arguments appended one by one. */
  method NamedToPositionalControlPlane<V>(sql: string, params: map<string, V>, w: char -> bool)
    returns (r: Result<(string, seq<V>), string>)
    ensures Answers(r, sql, params, w)
  {
    var hidden, literals := SaveLiterals(MarkCasts(sql));
    var numbered, order := NumberParameters(hidden, w);
    var converted := RestoreAll(numbered, literals);
    var args: seq<V> := [];
    for k := 0 to |order|
      invariant |args| == k && FirstMissing(order, params) == FirstMissing(order[k..], params)
      invariant forall j :: 0 <= j < k ==> order[j] in params && args[j] == params[order[j]]
    {
      assert order[k..][1..] == order[k + 1..];
      if order[k] !in params {
        return Failure(order[k]);
      }
      args := args + [params[order[k]]];
    }
    r := Success((converted, args));
  }

  /** The two copies cannot disagree. */
  lemma CopiesAgree<V>(a: Result<(string, seq<V>), string>, b: Result<(string, seq<V>), string>,
                       sql: string, params: map<string, V>, w: char -> bool)
    requires Answers(a, sql, params, w) && Answers(b, sql, params, w)
    ensures a == b
  {
    if a.Success? {
      assert a.value.1 == b.value.1;
    }
  }

  /**
   What a successful call returns, read and evaluated by the server, is the named query with its
   dictionary: exactly for faithful texts.
   */
  lemma AnswerEvaluates<V>(r: Result<(string, seq<V>), string>, sql: string, params: map<string, V>, w: char -> bool)
    requires WordClass(w) && DigitsAreWord(w) && NUL !in sql
    requires Answers(r, sql, params, w) && r.Success?
    ensures forall x :: x in Names(Lex(sql, w)) ==> x in params
    ensures var read := Read(r.value.0);
            InRange(read, |r.value.1|) && EvaluatePositional(read, r.value.1) == EvaluateNamed(Lex(sql, w), params)
            <==> Faithful(sql, w)
  {
    var order := Rewrite(sql, w).1;
    forall k | 0 <= k < |order| ensures order[k] in params {
      assert order[k] in order;
    }
    EvaluationAgrees(sql, w, params, r.value.1);
  }
}
