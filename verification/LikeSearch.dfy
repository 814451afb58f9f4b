// Escaping of a search text into a LIKE pattern, and LIKE itself with `!` as escape character,
// after section 8.5 of ISO/IEC 9075-2.

module LikeSearch {
  import opened Options
  import opened Texts

  const ESCAPE := '!'

  // ---------- The escaping ----------

  /** Python's `s.replace(c, with)` for a one-character target. */
  function Replace(s: string, c: char, with: string): string {
    if s == "" then "" else (if s[0] == c then with else [s[0]]) + Replace(s[1..], c, with)
  }

  function EscapeLike(text: string): string {
    Replace(Replace(Replace(text, '!', "!!"), '%', "!%"), '_', "!_")
  }

  function PatternFor(query: string): string {
    "%" + EscapeLike(query) + "%"
  }

  /** One pass over the text, escaping the three special characters. */
  function EscapeEach(text: string): string {
    if text == "" then ""
    else (if text[0] in {'!', '%', '_'} then [ESCAPE, text[0]] else [text[0]]) + EscapeEach(text[1..])
  }

  lemma {:induction false} ReplaceConcat(a: string, b: string, c: char, with: string)
    ensures Replace(a + b, c, with) == Replace(a, c, with) + Replace(b, c, with)
  {
    if a == "" {
      assert a + b == b;
    } else {
      assert (a + b)[1..] == a[1..] + b;
      ReplaceConcat(a[1..], b, c, with);
    }
  }

  lemma Replace1(x: char, c: char, with: string)
    ensures Replace([x], c, with) == if x == c then with else [x]
  {
    assert [x][1..] == "";
    assert Replace("", c, with) == "";
    assert with + "" == with && [x] + "" == [x];
  }

  /** The escape character is doubled first, so no pass touches what an earlier one wrote. */
  lemma {:induction false} EscapeIsOnePass(text: string)
    ensures EscapeLike(text) == EscapeEach(text)
  {
    if text != "" {
      var x, rest := text[0], text[1..];
      assert text == [x] + rest;
      EscapeIsOnePass(rest);
      var a := if x == '!' then "!!" else [x];
      var b := if x == '%' then "!%" else a;
      Replace1(x, '!', "!!");
      Replace1('!', '%', "!%");
      Replace1(x, '%', "!%");
      Replace1('!', '_', "!_");
      Replace1('%', '_', "!_");
      Replace1(x, '_', "!_");
      assert "!!" == "!" + "!" && "!%" == "!" + "%";
      ReplaceConcat("!", "!", '%', "!%");
      ReplaceConcat("!", "!", '_', "!_");
      ReplaceConcat("!", "%", '_', "!_");
      ReplaceConcat([x], rest, '!', "!!");
      ReplaceConcat(a, Replace(rest, '!', "!!"), '%', "!%");
      ReplaceConcat(b, Replace(Replace(rest, '!', "!!"), '%', "!%"), '_', "!_");
    }
  }

  // ---------- LIKE ----------

  datatype Token = Literal(c: char) | AnyChar | AnyRun

  /** None when the escape character is last or precedes something that needs no escape. */
  function Parse(pattern: string): Option<seq<Token>> {
    if pattern == "" then Some([])
    else if pattern[0] == ESCAPE then
      if |pattern| == 1 || pattern[1] !in {'!', '%', '_'} then None
      else match Parse(pattern[2..]) case None => None case Some(rest) => Some([Literal(pattern[1])] + rest)
    else
      match Parse(pattern[1..])
      case None => None
      case Some(rest) =>
        Some([if pattern[0] == '%' then AnyRun else if pattern[0] == '_' then AnyChar else Literal(pattern[0])] + rest)
  }

  /** `fold` is what the comparison ignores: the identity for LIKE, case folding for ILIKE. */
  ghost predicate Matches(tokens: seq<Token>, s: string, fold: char -> char)
    decreases |tokens|
  {
    if tokens == [] then s == ""
    else match tokens[0]
      case Literal(c) => s != "" && fold(s[0]) == fold(c) && Matches(tokens[1..], s[1..], fold)
      case AnyChar => s != "" && Matches(tokens[1..], s[1..], fold)
      case AnyRun => exists i | 0 <= i <= |s| :: Matches(tokens[1..], s[i..], fold)
  }

  ghost predicate Like(s: string, pattern: string, fold: char -> char) {
    Parse(pattern).Some? && Matches(Parse(pattern).value, s, fold)
  }

  // ---------- The round trip ----------

  function Literals(q: string): seq<Token> {
    seq(|q|, i requires 0 <= i < |q| => Literal(q[i]))
  }

  lemma ParseFirst(c: char, tail: string)
    ensures Parse((if c in {'!', '%', '_'} then [ESCAPE, c] else [c]) + tail) ==
            match Parse(tail) case None => None case Some(t) => Some([Literal(c)] + t)
  {
    var first := if c in {'!', '%', '_'} then [ESCAPE, c] else [c];
    assert (first + tail)[|first|..] == tail;
  }

  /** Escaped text parses to its own characters, whatever follows. */
  lemma {:induction false} ParseEscaped(q: string, rest: string)
    ensures Parse(EscapeEach(q) + rest) ==
            match Parse(rest) case None => None case Some(t) => Some(Literals(q) + t)
  {
    if q == "" {
      assert EscapeEach(q) + rest == rest;
      assert Parse(rest).Some? ==> Literals(q) + Parse(rest).value == Parse(rest).value;
    } else {
      ParseEscaped(q[1..], rest);
      var tail := EscapeEach(q[1..]) + rest;
      var first := if q[0] in {'!', '%', '_'} then [ESCAPE, q[0]] else [q[0]];
      ConcatAssociates(first, EscapeEach(q[1..]), rest);
      assert (first + tail)[|first|..] == tail;
      ParseFirst(q[0], tail);
      if Parse(rest).Some? {
        assert Literals(q) == [Literal(q[0])] + Literals(q[1..]);
        ConcatAssociates([Literal(q[0])], Literals(q[1..]), Parse(rest).value);
      }
    }
  }

  predicate SameUpTo(a: string, b: string, fold: char -> char) {
    |a| == |b| && forall i | 0 <= i < |a| :: fold(a[i]) == fold(b[i])
  }

  predicate OccursAt(q: string, s: string, i: nat, fold: char -> char) {
    i + |q| <= |s| && SameUpTo(q, s[i..i + |q|], fold)
  }

  ghost predicate OccursIn(q: string, s: string, fold: char -> char) {
    exists i: nat :: OccursAt(q, s, i, fold)
  }

  lemma {:induction false} MatchLiterals(q: string, rest: seq<Token>, s: string, fold: char -> char)
    ensures Matches(Literals(q) + rest, s, fold) <==>
            |q| <= |s| && SameUpTo(q, s[..|q|], fold) && Matches(rest, s[|q|..], fold)
  {
    var tokens := Literals(q) + rest;
    if q == "" {
      assert tokens == rest && s[0..] == s;
    } else {
      assert tokens[1..] == Literals(q[1..]) + rest && tokens[0] == Literal(q[0]);
      if s != "" {
        MatchLiterals(q[1..], rest, s[1..], fold);
        if |q| <= |s| {
          assert s[1..][|q| - 1..] == s[|q|..] && s[..|q|][1..] == s[1..][..|q| - 1];
          SameUpToCons(q, s[..|q|], fold);
        }
      }
    }
  }

  lemma SameUpToCons(a: string, b: string, fold: char -> char)
    requires |a| == |b| > 0
    ensures SameUpTo(a, b, fold) <==> fold(a[0]) == fold(b[0]) && SameUpTo(a[1..], b[1..], fold)
  {
    if fold(a[0]) == fold(b[0]) && SameUpTo(a[1..], b[1..], fold) {
      forall i | 0 <= i < |a| ensures fold(a[i]) == fold(b[i]) {
        assert i > 0 ==> a[i] == a[1..][i - 1] && b[i] == b[1..][i - 1];
      }
    }
  }

  lemma AnyRunMatchesAll(s: string, fold: char -> char)
    ensures Matches([AnyRun], s, fold)
  {
    assert s[|s|..] == "" && [AnyRun][1..] == [];
    assert Matches([AnyRun][1..], s[|s|..], fold);
  }

  lemma PatternParses(q: string)
    ensures Parse(PatternFor(q)) == Some([AnyRun] + (Literals(q) + [AnyRun]))
  {
    EscapeIsOnePass(q);
    ParseEscaped(q, "%");
    assert "%"[1..] == "" && [AnyRun] + [] == [AnyRun];
    assert Parse("%") == Some([AnyRun]);
    ConcatAssociates("%", EscapeEach(q), "%");
    var p := "%" + (EscapeEach(q) + "%");
    assert p[1..] == EscapeEach(q) + "%" && p[0] == '%';
  }

  /** Searching for a text finds it exactly where it occurs, wildcards and escapes in it included. */
  lemma SearchFindsExactly(q: string, s: string, fold: char -> char)
    ensures Parse(PatternFor(q)).Some?
    ensures Like(s, PatternFor(q), fold) <==> OccursIn(q, s, fold)
  {
    PatternParses(q);
    var tokens := [AnyRun] + (Literals(q) + [AnyRun]);
    assert tokens[1..] == Literals(q) + [AnyRun] && tokens[0] == AnyRun;
    forall i: nat | i <= |s| ensures Matches(tokens[1..], s[i..], fold) <==> OccursAt(q, s, i, fold) {
      MatchLiterals(q, [AnyRun], s[i..], fold);
      if i + |q| <= |s| {
        assert s[i..][..|q|] == s[i..i + |q|];
        AnyRunMatchesAll(s[i..][|q|..], fold);
      }
    }
    if OccursIn(q, s, fold) {
      var i: nat :| OccursAt(q, s, i, fold);
      assert Matches(tokens[1..], s[i..], fold);
    }
  }

  /** What plain LIKE compares by. */
  function Exactly(c: char): char {
    c
  }

  /** Unescaped, the query `%` finds every text; escaped, only the texts that hold a `%`. */
  lemma EscapingMatters(s: string)
    ensures Like(s, "%" + "%" + "%", Exactly)
    ensures Like(s, PatternFor("%"), Exactly) <==> '%' in s
  {
    SearchFindsExactly("%", s, Exactly);
    if OccursIn("%", s, Exactly) {
      var i: nat :| OccursAt("%", s, i, Exactly);
      assert Exactly(s[i..i + 1][0]) == '%';
    }
    if '%' in s {
      var i: nat :| i < |s| && s[i] == '%';
      assert OccursAt("%", s, i, Exactly);
    }
    AllRunsMatch(s, Exactly);
  }

  lemma AllRunsMatch(s: string, fold: char -> char)
    ensures Like(s, "%" + "%" + "%", fold)
  {
    var p := "%" + "%" + "%";
    var t := [AnyRun, AnyRun, AnyRun];
    assert p[1..] == "%%" && p[1..][1..] == "%" && "%"[1..] == "" && "%%"[1..] == "%";
    assert [AnyRun] + [] == [AnyRun] && [AnyRun] + [AnyRun] == [AnyRun, AnyRun] && [AnyRun] + [AnyRun, AnyRun] == t;
    assert Parse("%") == Some([AnyRun]);
    assert Parse("%%") == Some([AnyRun, AnyRun]);
    assert Parse(p) == Some(t);
    assert t[1..][1..] == [AnyRun] && s[0..] == s;
    AnyRunMatchesAll(s, fold);
    assert Matches(t[1..][1..], s[0..], fold);
    assert Matches(t[1..], s[0..], fold);
  }
}
