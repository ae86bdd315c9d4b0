/** Version texts and their order: owner-app/electron/ownerAgent.ts, lines 80-103. */
module Versions {
  import opened Text

  predicate IsSpace(c: char) {
    c in {' ', '\t', '\n', '\U{0B}', '\U{0C}', '\r', '\U{A0}', '\U{1680}', '\U{2028}', '\U{2029}',
          '\U{202F}', '\U{205F}', '\U{3000}', '\U{FEFF}'}
    || '\U{2000}' <= c <= '\U{200A}'
  }

  function TrimLeft(s: string): string {
    if s != "" && IsSpace(s[0]) then TrimLeft(s[1..]) else s
  }

  function TrimRight(s: string): string {
    if s != "" && IsSpace(s[|s| - 1]) then TrimRight(s[..|s| - 1]) else s
  }

  /** `.replace(/^v/i, '')` */
  function DropV(s: string): string {
    if s != "" && (s[0] == 'v' || s[0] == 'V') then s[1..] else s
  }

  predicate Separator(c: char) { c == '.' || c == '-' || c == '+' }

  /** `.split(/[.\-+]/)`; `part` is the piece being read. */
  function Split(s: string, part: string): seq<string> {
    if s == "" then [part]
    else if Separator(s[0]) then [part] + Split(s[1..], "")
    else Split(s[1..], part + [s[0]])
  }

  function DigitPrefix(s: string): (r: string)
    ensures forall c :: c in r ==> IsDigit(c)
  {
    if s != "" && IsDigit(s[0]) then [s[0]] + DigitPrefix(s[1..]) else ""
  }

  /** `Number.parseInt(part, 10)`; None is NaN.  A part holds no sign, the split removed them. */
  function ParseInt(part: string): Option<nat> {
    var digits := DigitPrefix(TrimLeft(part));
    if digits == "" then None else Some(Value(digits))
  }

  function Numbers(parts: seq<string>): seq<nat> {
    if parts == [] then []
    else match ParseInt(parts[0])
      case None => Numbers(parts[1..])
      case Some(n) => [n] + Numbers(parts[1..])
  }

  function NormalizeVersion(value: Option<string>): seq<nat> {
    var text := if value.Some? then value.value else "";
    Numbers(Split(DropV(TrimRight(TrimLeft(text))), ""))
  }

  /** `v[i] ?? 0` */
  function Part(v: seq<nat>, i: nat): nat { if i < |v| then v[i] else 0 }

  ghost predicate SameUpTo(a: seq<nat>, b: seq<nat>, n: nat) {
    forall j :: 0 <= j < n ==> Part(a, j) == Part(b, j)
  }

  /** At the first place where they differ, `a` has the larger number. */
  ghost predicate Newer(a: seq<nat>, b: seq<nat>) {
    exists i: nat :: SameUpTo(a, b, i) && Part(a, i) > Part(b, i)
  }

  /** Equal up to padding with zeros. */
  ghost predicate SameVersion(a: seq<nat>, b: seq<nat>) {
    forall i: nat :: Part(a, i) == Part(b, i)
  }

  method IsVersionGreater(next: Option<string>, current: Option<string>) returns (r: bool)
    ensures r <==> Newer(NormalizeVersion(next), NormalizeVersion(current))
  {
    var left, right := NormalizeVersion(next), NormalizeVersion(current);
    var max := if |left| > |right| then |left| else |right|;
    for i := 0 to max
      invariant SameUpTo(left, right, i)
    {
      var a, b := Part(left, i), Part(right, i);
      if a != b {
        FirstDifferenceDecides(left, right, i);
        return a > b;
      }
    }
    forall i: nat ensures Part(left, i) == Part(right, i) {}
    return false;
  }

  lemma FirstDifferenceDecides(a: seq<nat>, b: seq<nat>, i: nat)
    requires SameUpTo(a, b, i) && Part(a, i) != Part(b, i)
    ensures Newer(a, b) <==> Part(a, i) > Part(b, i)
  {
  }

  /** The least place where two different versions differ. */
  lemma {:induction false} FirstDifference(a: seq<nat>, b: seq<nat>, n: nat) returns (i: nat)
    requires Part(a, n) != Part(b, n)
    ensures i <= n && SameUpTo(a, b, i) && Part(a, i) != Part(b, i)
  {
    i := 0;
    while Part(a, i) == Part(b, i)
      invariant i <= n && SameUpTo(a, b, i)
      decreases n - i
    {
      i := i + 1;
    }
  }

  lemma NewerIsIrreflexive(a: seq<nat>)
    ensures !Newer(a, a)
  {
  }

  lemma NewerIsTransitive(a: seq<nat>, b: seq<nat>, c: seq<nat>)
    requires Newer(a, b) && Newer(b, c)
    ensures Newer(a, c)
  {
  }

  /** Exactly one of: newer, older, equal up to zero padding. */
  lemma Trichotomy(a: seq<nat>, b: seq<nat>)
    ensures !Newer(a, b) && !Newer(b, a) <==> SameVersion(a, b)
    ensures !(Newer(a, b) && Newer(b, a))
  {
    if !SameVersion(a, b) {
      var n: nat :| Part(a, n) != Part(b, n);
      var i := FirstDifference(a, b, n);
      FirstDifferenceDecides(a, b, i);
      FirstDifferenceDecides(b, a, i);
    }
  }

  /** Versions equal up to padding are interchangeable, so incomparability is an equivalence. */
  lemma NewerRespectsPadding(a: seq<nat>, a': seq<nat>, b: seq<nat>)
    requires SameVersion(a, a')
    ensures Newer(a, b) <==> Newer(a', b)
    ensures Newer(b, a) <==> Newer(b, a')
  {
  }

  ghost predicate Upgrades(vs: seq<seq<nat>>) {
    forall k :: 0 <= k < |vs| - 1 ==> Newer(vs[k + 1], vs[k])
  }

  lemma {:induction false} UpgradesIncrease(vs: seq<seq<nat>>, i: nat, j: nat)
    requires Upgrades(vs) && i < j < |vs|
    ensures Newer(vs[j], vs[i])
    decreases j - i
  {
    var k := j - 1;
    assert Newer(vs[k + 1], vs[k]);
    if i == k {
    } else {
      UpgradesIncrease(vs, i, k);
      NewerIsTransitive(vs[j], vs[k], vs[i]);
    }
  }

  /** However many updates, no version comes back and none goes below an earlier one. */
  lemma UpgradesNeverReturn(vs: seq<seq<nat>>, i: nat, j: nat)
    requires Upgrades(vs) && i < j < |vs|
    ensures !SameVersion(vs[j], vs[i]) && !Newer(vs[i], vs[j])
  {
    UpgradesIncrease(vs, i, j);
    Trichotomy(vs[j], vs[i]);
  }

  // ---------------------------------------------------------------- reading back what is printed

  /** A part of a version text: spaces, a number or none, and what follows it. */
  datatype Segment = Segment(spaces: string, number: Option<nat>, tail: string)

  function NumberText(n: Option<nat>): string {
    match n
    case None => ""
    case Some(k) => Dec(k)
  }

  function SegmentText(p: Segment): string { p.spaces + (NumberText(p.number) + p.tail) }

  /** The characters JavaScript trims: its white space and its line terminators. */
  lemma SpacesExactly(c: char)
    ensures IsSpace(c) <==>
            var k := c as int;
            9 <= k <= 13 || k == 32 || k == 160 || k == 0x1680 || 0x2000 <= k <= 0x200A
            || k == 0x2028 || k == 0x2029 || k == 0x202F || k == 0x205F || k == 0x3000 || k == 0xFEFF
  {
  }

  predicate AllSpaces(s: string) { forall c :: c in s ==> IsSpace(c) }

  /** The tail holds no separator, and does not go on with what comes before it. */
  predicate SegmentOk(p: Segment) {
    && AllSpaces(p.spaces) && (forall c :: c in p.tail ==> c !in {'.', '-', '+'})
    && (p.tail != "" ==> !IsDigit(p.tail[0]) && (p.number.None? ==> !IsSpace(p.tail[0])))
  }

  /** The parts, with a separator between each two. */
  function Joined(parts: seq<Segment>, seps: string): string
    requires |parts| == |seps| + 1
  {
    if |parts| == 1 then SegmentText(parts[0])
    else SegmentText(parts[0]) + ([seps[0]] + Joined(parts[1..], seps[1..]))
  }

  function SegmentNumbers(parts: seq<Segment>): seq<nat> {
    if parts == [] then []
    else (if parts[0].number.Some? then [parts[0].number.value] else []) + SegmentNumbers(parts[1..])
  }

  lemma {:induction false} SplitPart(t: string, rest: string, part: string)
    requires forall c :: c in t ==> !Separator(c)
    ensures Split(t + rest, part) == Split(rest, part + t)
  {
    if t == "" {
      assert t + rest == rest && part + t == part;
    } else {
      assert t[0] in t && (t + rest)[1..] == t[1..] + rest;
      SplitPart(t[1..], rest, part + [t[0]]);
      assert part + t == (part + [t[0]]) + t[1..];
    }
  }

  lemma SegmentHasNoSeparator(p: Segment)
    requires SegmentOk(p)
    ensures forall c :: c in SegmentText(p) ==> !Separator(c)
  {
    forall c | c in SegmentText(p) ensures !Separator(c) {
      if c in p.spaces {
        assert IsSpace(c);
      } else if c !in p.tail {
        assert p.number.Some? && c in Dec(p.number.value);
        assert IsDigit(c);
      }
    }
  }

  lemma {:induction false} TrimSpaces(spaces: string, s: string)
    requires AllSpaces(spaces) && (s != "" ==> !IsSpace(s[0]))
    ensures TrimLeft(spaces + s) == s
  {
    if spaces == "" {
      assert spaces + s == s;
    } else {
      assert spaces[0] in spaces && (spaces + s)[1..] == spaces[1..] + s;
      TrimSpaces(spaces[1..], s);
    }
  }

  lemma {:induction false} TrimSpacesRight(s: string, spaces: string)
    requires AllSpaces(spaces) && (s != "" ==> !IsSpace(s[|s| - 1]))
    ensures TrimRight(s + spaces) == s
  {
    if spaces == "" {
      assert s + spaces == s;
    } else {
      var n := |spaces| - 1;
      assert spaces[n] in spaces && (s + spaces)[..|s + spaces| - 1] == s + spaces[..n];
      TrimSpacesRight(s, spaces[..n]);
    }
  }

  lemma {:induction false} DigitsFirst(digits: string, tail: string)
    requires (forall c :: c in digits ==> IsDigit(c)) && (tail != "" ==> !IsDigit(tail[0]))
    ensures DigitPrefix(digits + tail) == digits
  {
    if digits == "" {
      assert digits + tail == tail;
    } else {
      assert digits[0] in digits && (digits + tail)[1..] == digits[1..] + tail;
      DigitsFirst(digits[1..], tail);
      assert digits == [digits[0]] + digits[1..];
    }
  }

  /** A part reads as its number. */
  lemma SegmentParses(p: Segment)
    requires SegmentOk(p)
    ensures ParseInt(SegmentText(p)) == p.number
  {
    var digits := NumberText(p.number);
    if p.number.Some? {
      assert digits[0] in digits && (digits + p.tail)[0] == digits[0];
      assert !IsSpace(digits[0]);
      ValueOfDec(p.number.value);
    } else {
      assert digits + p.tail == p.tail;
    }
    TrimSpaces(p.spaces, digits + p.tail);
    DigitsFirst(digits, p.tail);
  }

  lemma SplitFirst(text: string, sep: char, rest: string)
    requires (forall c :: c in text ==> !Separator(c)) && Separator(sep)
    ensures Split(text + ([sep] + rest), "") == [text] + Split(rest, "")
  {
    SplitPart(text, [sep] + rest, "");
    assert "" + text == text;
    assert ([sep] + rest)[1..] == rest;
  }

  lemma SplitLast(text: string)
    requires forall c :: c in text ==> !Separator(c)
    ensures Split(text, "") == [text]
  {
    SplitPart(text, "", "");
    assert text + "" == text && "" + text == text;
  }

  /** Splitting at the separators and reading each part gives the parts' numbers. */
  lemma {:induction false} JoinedReads(parts: seq<Segment>, seps: string)
    requires |parts| == |seps| + 1 && forall k :: 0 <= k < |parts| ==> SegmentOk(parts[k])
    requires forall k :: 0 <= k < |seps| ==> seps[k] in {'.', '-', '+'}
    ensures Numbers(Split(Joined(parts, seps), "")) == SegmentNumbers(parts)
    decreases |parts|
  {
    var p, text := parts[0], SegmentText(parts[0]);
    SegmentHasNoSeparator(p);
    SegmentParses(p);
    if |parts| == 1 {
      SplitLast(text);
      assert [text][1..] == [] && parts[1..] == [];
    } else {
      JoinedReads(parts[1..], seps[1..]);
      var rest := Joined(parts[1..], seps[1..]);
      SplitFirst(text, seps[0], rest);
      assert ([text] + Split(rest, ""))[1..] == Split(rest, "");
    }
  }

  /** With spaces around and a `v` in front. */
  predicate Wrapped(before: string, lead: string, core: string, after: string) {
    && AllSpaces(before) && AllSpaces(after) && lead in {"", "v", "V"}
    && core != "" && !IsSpace(core[|core| - 1]) && (lead == "" ==> !IsSpace(core[0]) && core[0] !in {'v', 'V'})
  }

  lemma UnwrapReads(before: string, lead: string, core: string, after: string)
    requires Wrapped(before, lead, core, after)
    ensures NormalizeVersion(Some(before + ((lead + core) + after))) == Numbers(Split(core, ""))
  {
    var inner := lead + core;
    assert inner[|inner| - 1] == core[|core| - 1];
    assert inner[0] == if lead == "" then core[0] else lead[0];
    assert (inner + after)[0] == inner[0];
    TrimSpaces(before, inner + after);
    TrimSpacesRight(inner, after);
    if lead == "" {
      assert inner == core;
    } else {
      assert inner[1..] == core;
    }
  }

  /** Every version text made of such parts reads as the numbers of its parts; parts without one are dropped. */
  lemma VersionReads(before: string, lead: string, parts: seq<Segment>, seps: string, after: string)
    requires |parts| == |seps| + 1 && forall k :: 0 <= k < |parts| ==> SegmentOk(parts[k])
    requires forall k :: 0 <= k < |seps| ==> seps[k] in {'.', '-', '+'}
    requires Wrapped(before, lead, Joined(parts, seps), after)
    ensures NormalizeVersion(Some(before + ((lead + Joined(parts, seps)) + after))) == SegmentNumbers(parts)
  {
    UnwrapReads(before, lead, Joined(parts, seps), after);
    JoinedReads(parts, seps);
  }

  // ---------------------------------------------------------------- plain numbers

  function NumberSegments(v: seq<nat>): (r: seq<Segment>)
    ensures |r| == |v| && forall k :: 0 <= k < |v| ==> r[k] == Segment("", Some(v[k]), "")
  {
    seq(|v|, k requires 0 <= k < |v| => Segment("", Some(v[k]), ""))
  }

  /** The numbers, printed, with these separators. */
  function PrintVersion(v: seq<nat>, seps: string): string
    requires |v| == |seps| + 1
  {
    Joined(NumberSegments(v), seps)
  }

  lemma {:induction false} NumbersOfSegments(v: seq<nat>)
    ensures SegmentNumbers(NumberSegments(v)) == v
  {
    if v == [] {
    } else {
      NumbersOfSegments(v[1..]);
      assert NumberSegments(v)[1..] == NumberSegments(v[1..]);
      assert v == [v[0]] + v[1..];
    }
  }

  lemma {:induction false} PrintedEndsInDigits(v: seq<nat>, seps: string)
    requires |v| == |seps| + 1
    ensures var s := PrintVersion(v, seps); s != "" && IsDigit(s[0]) && IsDigit(s[|s| - 1])
  {
    var d := Dec(v[0]);
    assert d[0] in d && d[|d| - 1] in d;
    assert SegmentText(NumberSegments(v)[0]) == d;
    if |v| == 1 {
    } else {
      PrintedEndsInDigits(v[1..], seps[1..]);
      assert NumberSegments(v)[1..] == NumberSegments(v[1..]);
    }
  }

  /** Printed numbers read back, with any separators, a `v` or not, and spaces around. */
  lemma PrintedVersionReads(v: seq<nat>, seps: string, before: string, lead: string, after: string)
    requires |v| == |seps| + 1 && forall k :: 0 <= k < |seps| ==> seps[k] in {'.', '-', '+'}
    requires AllSpaces(before) && AllSpaces(after) && lead in {"", "v", "V"}
    ensures NormalizeVersion(Some(before + ((lead + PrintVersion(v, seps)) + after))) == v
  {
    PrintedEndsInDigits(v, seps);
    VersionReads(before, lead, NumberSegments(v), seps, after);
    NumbersOfSegments(v);
  }

  /** Texts compare as the numbers they print. */
  lemma PrintedVersionsCompare(v: seq<nat>, u: seq<nat>, vseps: string, useps: string)
    requires |v| == |vseps| + 1 && |u| == |useps| + 1
    requires forall k :: 0 <= k < |vseps| ==> vseps[k] in {'.', '-', '+'}
    requires forall k :: 0 <= k < |useps| ==> useps[k] in {'.', '-', '+'}
    ensures Newer(NormalizeVersion(Some(PrintVersion(v, vseps))), NormalizeVersion(Some(PrintVersion(u, useps))))
            <==> Newer(v, u)
  {
    PlainVersionReads(v, vseps);
    PlainVersionReads(u, useps);
  }

  lemma PlainVersionReads(v: seq<nat>, seps: string)
    requires |v| == |seps| + 1 && forall k :: 0 <= k < |seps| ==> seps[k] in {'.', '-', '+'}
    ensures NormalizeVersion(Some(PrintVersion(v, seps))) == v
  {
    PrintedVersionReads(v, seps, "", "", "");
    var s := PrintVersion(v, seps);
    assert "" + (("" + s) + "") == s;
  }

  lemma PrintNext(v: seq<nat>, seps: string)
    requires |v| == |seps| + 1 && |v| > 1
    ensures PrintVersion(v, seps) == Dec(v[0]) + ([seps[0]] + PrintVersion(v[1..], seps[1..]))
  {
    assert NumberSegments(v)[1..] == NumberSegments(v[1..]);
    assert SegmentText(NumberSegments(v)[0]) == Dec(v[0]);
  }

  lemma PrintOne(n: nat)
    ensures PrintVersion([n], "") == Dec(n)
  {
    assert SegmentText(NumberSegments([n])[0]) == Dec(n);
  }

  lemma ThreeNumbers(a: nat, b: nat, c: nat, text: string)
    requires text == Dec(a) + (['.'] + (Dec(b) + (['.'] + Dec(c))))
    ensures NormalizeVersion(Some(text)) == [a, b, c]
  {
    var v, seps := [a, b, c], ['.', '.'];
    assert v[1..] == [b, c] && [b, c][1..] == [c] && seps[1..] == ['.'] && ['.'][1..] == "";
    PrintNext(v, seps);
    PrintNext([b, c], ['.']);
    PrintOne(c);
    PlainVersionReads(v, seps);
  }

  lemma SmallNumbers()
    ensures Dec(0) == "0" && Dec(1) == "1" && Dec(2) == "2" && Dec(9) == "9" && Dec(10) == "10"
  {
  }

  lemma TwoThenOne(next: string, current: string)
    requires next == "2.0.0" && current == "1.0.0"
    ensures Newer(NormalizeVersion(Some(next)), NormalizeVersion(Some(current)))
  {
    SmallNumbers();
    assert next == "2" + (['.'] + ("0" + (['.'] + "0"))) && current == "1" + (['.'] + ("0" + (['.'] + "0")));
    ThreeNumbers(2, 0, 0, next);
    ThreeNumbers(1, 0, 0, current);
    assert SameUpTo([2, 0, 0], [1, 0, 0], 0) && Part([2, 0, 0], 0) > Part([1, 0, 0], 0);
  }

  lemma TwoIsNewer()
    ensures Newer(NormalizeVersion(Some("2.0.0")), NormalizeVersion(Some("1.0.0")))
  {
    TwoThenOne("2.0.0", "1.0.0");
  }

  /** 1.10.0 is an upgrade of 1.9.0. */
  lemma TenIsAfterNine(next: string, current: string)
    requires next == "1.10.0" && current == "1.9.0"
    ensures Newer(NormalizeVersion(Some(next)), NormalizeVersion(Some(current)))
  {
    SmallNumbers();
    assert next == "1" + (['.'] + ("10" + (['.'] + "0"))) && current == "1" + (['.'] + ("9" + (['.'] + "0")));
    ThreeNumbers(1, 10, 0, next);
    ThreeNumbers(1, 9, 0, current);
    var v, u := [1, 10, 0], [1, 9, 0];
    assert Part(v, 0) == 1 && Part(u, 0) == 1 && Part(v, 1) == 10 && Part(u, 1) == 9;
    assert SameUpTo(v, u, 1);
  }
}
