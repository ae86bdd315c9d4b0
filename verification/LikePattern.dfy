/**
 `escape_like` of backend/db/connection.py against LIKE matching with the backslash escape
 (PostgreSQL manual, section 9.7.1).  `fold` is the case folding of ILIKE, the identity for LIKE.
 */
module LikePattern {
  import opened Text

  const BACKSLASH: char := '\\'

  /** The three chained replaces. */
  function EscapeLike(term: string): string {
    ReplaceAll(ReplaceAll(ReplaceAll(term, "\\", "\\\\"), "%", "\\%"), "_", "\\_")
  }

  predicate Special(c: char) { c == BACKSLASH || c == '%' || c == '_' }

  /** One character escaped on its own. */
  function Escaped(c: char): string { if Special(c) then [BACKSLASH, c] else [c] }

  function MapEscaped(term: string): string {
    if term == "" then "" else Escaped(term[0]) + MapEscaped(term[1..])
  }

  /** Does the whole text match the pattern?  A lone final backslash matches nothing. */
  predicate Like(pattern: string, text: string, fold: char -> char)
    decreases |pattern|, |text|
  {
    if pattern == "" then text == ""
    else if pattern[0] == '%' then
      Like(pattern[1..], text, fold) || (text != "" && Like(pattern, text[1..], fold))
    else if pattern[0] == '_' then
      text != "" && Like(pattern[1..], text[1..], fold)
    else if pattern[0] == BACKSLASH then
      |pattern| > 1 && text != "" && fold(pattern[1]) == fold(text[0]) && Like(pattern[2..], text[1..], fold)
    else
      text != "" && fold(pattern[0]) == fold(text[0]) && Like(pattern[1..], text[1..], fold)
  }

  /** `term` stands at position `at` of `text`, up to folding. */
  predicate OccursAt(term: string, text: string, at: nat, fold: char -> char) {
    at + |term| <= |text| && forall k :: 0 <= k < |term| ==> fold(text[at + k]) == fold(term[k])
  }

  predicate Contains(text: string, term: string, fold: char -> char) {
    exists at :: 0 <= at <= |text| && OccursAt(term, text, at, fold)
  }

  /** A one-character replace copies or expands the head, then goes on. */
  lemma ReplaceOne(x: string, y: string, c: char, rep: string)
    ensures ReplaceAll(x + y, [c], rep) == ReplaceAll(x, [c], rep) + ReplaceAll(y, [c], rep)
    decreases |x|
  {
    if x == "" {
      assert x + y == y;
    } else {
      assert (x + y)[1..] == x[1..] + y;
      ReplaceOne(x[1..], y, c, rep);
      PrefixCons([c], x);
      PrefixCons([c], x + y);
      Regroup(if x[0] == c then rep else [x[0]], ReplaceAll(x[1..], [c], rep), ReplaceAll(y, [c], rep));
    }
  }

  lemma EscapeOneChar(c: char)
    ensures EscapeLike([c]) == Escaped(c)
  {
    var a := ReplaceAll([c], "\\", "\\\\");
    PrefixCons("\\", [c]);
    PrefixCons("%", [c]);
    PrefixCons("_", [c]);
    assert [c][1..] == "";
    assert a == if c == BACKSLASH then "\\\\" else [c];
    if c == BACKSLASH {
      ReplaceSkip("\\\\", "", "%", "\\%");
      ReplaceSkip("\\\\", "", "_", "\\_");
      assert "\\\\" + "" == "\\\\";
    } else if c == '%' {
      ReplaceSkip("\\%", "", "_", "\\_");
      assert "\\%" + "" == "\\%";
    }
  }

  /** The three passes do not see each other's backslashes: they are one map over the characters. */
  lemma {:induction false} ChainIsMap(term: string)
    ensures EscapeLike(term) == MapEscaped(term)
  {
    if term == "" {
    } else {
      var h, t := [term[0]], term[1..];
      assert term == h + t;
      ReplaceOne(h, t, BACKSLASH, "\\\\");
      var h1, t1 := ReplaceAll(h, "\\", "\\\\"), ReplaceAll(t, "\\", "\\\\");
      ReplaceOne(h1, t1, '%', "\\%");
      var h2, t2 := ReplaceAll(h1, "%", "\\%"), ReplaceAll(t1, "%", "\\%");
      ReplaceOne(h2, t2, '_', "\\_");
      EscapeOneChar(term[0]);
      ChainIsMap(t);
    }
  }

  /** An escaped term followed by `%` matches exactly the texts that start with the term. */
  lemma {:induction false} PrefixMatch(term: string, text: string, fold: char -> char)
    ensures Like(MapEscaped(term) + "%", text, fold) <==> OccursAt(term, text, 0, fold)
  {
    var pattern := MapEscaped(term) + "%";
    if term == "" {
      assert pattern == "%" && pattern[1..] == "";
      PercentMatchesAll(text, fold);
    } else {
      var rest := MapEscaped(term[1..]) + "%";
      assert pattern == Escaped(term[0]) + rest;
      if Special(term[0]) {
        assert pattern[2..] == rest;
      } else {
        assert pattern[1..] == rest;
      }
      if text != "" {
        PrefixMatch(term[1..], text[1..], fold);
        OccursCons(term, text, fold);
      }
    }
  }

  lemma OccursCons(term: string, text: string, fold: char -> char)
    requires term != "" && text != ""
    ensures OccursAt(term, text, 0, fold) <==>
            fold(text[0]) == fold(term[0]) && OccursAt(term[1..], text[1..], 0, fold)
  {
  }

  lemma {:induction false} PercentMatchesAll(text: string, fold: char -> char)
    ensures Like("%", text, fold)
  {
    assert "%"[1..] == "";
    if text == "" {
    } else {
      PercentMatchesAll(text[1..], fold);
    }
  }

  /** A leading `%` tries every suffix. */
  lemma {:induction false} PercentTriesSuffixes(pattern: string, text: string, fold: char -> char)
    ensures Like("%" + pattern, text, fold) <==> exists at :: 0 <= at <= |text| && Like(pattern, text[at..], fold)
  {
    assert ("%" + pattern)[1..] == pattern;
    assert text[0..] == text;
    if text != "" {
      PercentTriesSuffixes(pattern, text[1..], fold);
      forall at | 0 <= at <= |text[1..]| ensures text[1..][at..] == text[at + 1..] {
      }
      if at :| 0 <= at <= |text| && Like(pattern, text[at..], fold) {
        if at > 0 {
          assert text[1..][at - 1..] == text[at..];
        }
      }
      if at :| 0 <= at <= |text[1..]| && Like(pattern, text[1..][at..], fold) {
        assert text[at + 1..] == text[1..][at..];
      }
    } else if at :| 0 <= at <= |text| && Like(pattern, text[at..], fold) {
      assert text[at..] == text;
    }
  }

  /** The documented use, `%` + escaped term + `%`: it matches exactly when the text contains the term. */
  lemma EscapedMatchMeansContains(term: string, text: string, fold: char -> char)
    ensures Like("%" + EscapeLike(term) + "%", text, fold) <==> Contains(text, term, fold)
  {
    ChainIsMap(term);
    var inner := MapEscaped(term) + "%";
    assert "%" + MapEscaped(term) + "%" == "%" + inner;
    PercentTriesSuffixes(inner, text, fold);
    forall at | 0 <= at <= |text|
      ensures Like(inner, text[at..], fold) <==> OccursAt(term, text, at, fold)
    {
      PrefixMatch(term, text[at..], fold);
      OccursInSuffix(term, text, at, fold);
    }
  }

  lemma OccursInSuffix(term: string, text: string, at: nat, fold: char -> char)
    requires at <= |text|
    ensures OccursAt(term, text[at..], 0, fold) <==> OccursAt(term, text, at, fold)
  {
  }

  function Same(c: char): char { c }

  /** Without the escaping, `_` finds texts that do not contain it. */
  lemma UnescapedTermOvermatches()
    ensures Like("%" + "_" + "%", "a", Same) && !Contains("a", "_", Same)
  {
    var p := "%" + "_" + "%";
    assert p[1..] == "_%" && "_%"[1..] == "%" && "a"[1..] == "";
    PercentMatchesAll("", Same);
    assert !OccursAt("_", "a", 0, Same) by {
      assert "a"[0 + 0] != "_"[0];
    }
  }
}
