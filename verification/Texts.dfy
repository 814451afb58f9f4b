// Options, text primitives and the lexicographic order shared by the models.

module Options {
  datatype Option<+T> = None | Some(value: T)
}

module Texts {
  /** Python's `s.endswith(p)`; `s.startswith(p)` is Dafny's prefix test `p <= s`. */
  predicate EndsWith(s: string, p: string) {
    |p| <= |s| && s[|s| - |p|..] == p
  }

  /** Python's `s.split(sep)` for a one-character separator. */
  function Split(s: string, sep: char): (parts: seq<string>)
    ensures |parts| > 0
  {
    if s == "" then [""]
    else
      var rest := Split(s[1..], sep);
      if s[0] == sep then [""] + rest else [[s[0]] + rest[0]] + rest[1..]
  }

  /** Python's `sep.join(parts)`. */
  function Join(parts: seq<string>, sep: char): string {
    if |parts| == 0 then ""
    else if |parts| == 1 then parts[0]
    else parts[0] + [sep] + Join(parts[1..], sep)
  }

  lemma ConcatAssociates<T>(a: seq<T>, b: seq<T>, c: seq<T>)
    ensures (a + b) + c == a + (b + c)
  {
  }

  lemma {:induction false} SplitWhole(a: string, sep: char)
    requires sep !in a
    ensures Split(a, sep) == [a]
  {
    if a != "" {
      SplitWhole(a[1..], sep);
      assert [a[0]] + a[1..] == a;
    }
  }

  lemma {:induction false} SplitJoin(xs: seq<string>, sep: char)
    requires |xs| > 0
    requires forall i | 0 <= i < |xs| :: sep !in xs[i]
    ensures Split(Join(xs, sep), sep) == xs
  {
    if |xs| == 1 {
      SplitWhole(xs[0], sep);
    } else {
      SplitJoin(xs[1..], sep);
      SplitPrefix(xs[0], Join(xs[1..], sep), sep);
    }
  }

  lemma {:induction false} JoinSplit(s: string, sep: char)
    ensures Join(Split(s, sep), sep) == s
    ensures forall i | 0 <= i < |Split(s, sep)| :: sep !in Split(s, sep)[i]
  {
    if s != "" {
      JoinSplit(s[1..], sep);
      var rest := Split(s[1..], sep);
      assert s == [s[0]] + s[1..];
      if s[0] == sep {
        assert ([""] + rest)[1..] == rest;
      } else if |rest| > 1 {
        assert ([[s[0]] + rest[0]] + rest[1..])[1..] == rest[1..];
      }
    }
  }

  /** Cutting a concatenation cuts both sides. */
  lemma {:induction false} SplitConcat(a: string, b: string, sep: char)
    ensures Split(a + [sep] + b, sep) == Split(a, sep) + Split(b, sep)
  {
    var s := a + [sep] + b;
    if a == "" {
      assert s[1..] == b;
    } else {
      assert s[1..] == a[1..] + [sep] + b;
      SplitConcat(a[1..], b, sep);
      var x, y := Split(a[1..], sep), Split(b, sep);
      if a[0] == sep {
        ConcatAssociates([""], x, y);
      } else {
        assert (x + y)[1..] == x[1..] + y && (x + y)[0] == x[0];
        ConcatAssociates([[a[0]] + x[0]], x[1..], y);
      }
    }
  }

  lemma SplitPrefix(a: string, b: string, sep: char)
    requires sep !in a
    ensures Split(a + [sep] + b, sep) == [a] + Split(b, sep)
  {
    SplitConcat(a, b, sep);
    SplitWhole(a, sep);
  }

  /** What stands in front of the first separator is determined by the text. */
  lemma SameHeads(a: string, x: string, b: string, y: string, sep: char)
    requires sep !in a && sep !in b && a + [sep] + x == b + [sep] + y
    ensures a == b && x == y
  {
    var s, t := a + [sep] + x, b + [sep] + y;
    assert s[|a|] == sep && t[|b|] == sep;
    assert forall i | 0 <= i < |a| :: s[i] == a[i] && a[i] in a;
    assert forall i | 0 <= i < |b| :: t[i] == b[i] && b[i] in b;
    assert a == s[..|a|] && b == t[..|b|];
    assert x == s[|a| + 1..] && y == t[|b| + 1..];
  }

  lemma {:induction false} SplitCount(a: string, sep: char)
    ensures sep in a <==> |Split(a, sep)| > 1
  {
    if a != "" {
      SplitCount(a[1..], sep);
      assert a == [a[0]] + a[1..];
    }
  }

  /** Python's `s.replace(pattern, "")`. */
  function Without(s: string, pattern: string): string
    requires pattern != ""
    decreases |s|
  {
    if s == "" then "" else if pattern <= s then Without(s[|pattern|..], pattern) else [s[0]] + Without(s[1..], pattern)
  }

  /** An occurrence goes; what stands in front of the first one stays. */
  lemma {:induction false} WithoutDropsOne(a: string, pattern: string, b: string)
    requires pattern != "" && forall j | 0 <= j < |a| :: !(pattern <= a[j..] + (pattern + b))
    ensures Without(a + (pattern + b), pattern) == a + Without(b, pattern)
  {
    var s := pattern + b;
    if a == "" {
      assert a + s == s && s[|pattern|..] == b;
    } else {
      assert a[0..] == a && (a + s)[1..] == a[1..] + s;
      forall j | 0 <= j < |a| - 1 ensures !(pattern <= a[1..][j..] + s) {
        assert a[1..][j..] == a[j + 1..];
      }
      WithoutDropsOne(a[1..], pattern, b);
      assert [a[0]] + (a[1..] + Without(b, pattern)) == a + Without(b, pattern);
    }
  }

  /** Python's `part in s`. */
  predicate Has(s: string, part: string) {
    exists i :: 0 <= i <= |s| && part <= s[i..]
  }

  /** Python's `s.rstrip(chars)`. */
  function StripRight(s: string, chars: set<char>): string {
    if s != "" && s[|s| - 1] in chars then StripRight(s[..|s| - 1], chars) else s
  }

  lemma {:induction false} StripRightExactly(s: string, chars: set<char>)
    ensures var r := StripRight(s, chars);
            r <= s && (forall i | |r| <= i < |s| :: s[i] in chars) && (r != "" ==> r[|r| - 1] !in chars)
  {
    if s != "" && s[|s| - 1] in chars {
      StripRightExactly(s[..|s| - 1], chars);
    }
  }

  /** Python's `s.lstrip(chars)`. */
  function StripLeft(s: string, chars: set<char>): string {
    if s != "" && s[0] in chars then StripLeft(s[1..], chars) else s
  }

  lemma {:induction false} PaddingGoes(pad: string, s: string, chars: set<char>)
    requires forall i | 0 <= i < |pad| :: pad[i] in chars
    ensures StripLeft(pad + s, chars) == StripLeft(s, chars)
    ensures StripRight(s + pad, chars) == StripRight(s, chars)
    decreases |pad|
  {
    if pad == "" {
      assert pad + s == s && s + pad == s;
    } else {
      var n := |pad| - 1;
      assert (pad + s)[1..] == pad[1..] + s && (s + pad)[..|s + pad| - 1] == s + pad[..n];
      PaddingGoes(pad[1..], s, chars);
      PaddingGoes(pad[..n], s, chars);
    }
  }

  lemma {:induction false} StripLeftExactly(s: string, chars: set<char>)
    ensures var r := StripLeft(s, chars);
            && |r| <= |s| && s[|s| - |r|..] == r && (r != "" ==> r[0] !in chars)
            && forall i | 0 <= i < |s| - |r| :: s[i] in chars
  {
    if s != "" && s[0] in chars {
      StripLeftExactly(s[1..], chars);
      var rest := StripLeft(s[1..], chars);
      assert s[1..][|s| - 1 - |rest|..] == s[|s| - |rest|..];
      assert forall i | 0 < i < |s| - |rest| :: s[i] == s[1..][i - 1];
    }
  }

  /** The order of Python's string comparison. */
  predicate Less(a: string, b: string) {
    if b == "" then false
    else if a == "" then true
    else a[0] < b[0] || (a[0] == b[0] && Less(a[1..], b[1..]))
  }

  /** At the first place where two texts differ the smaller character decides; a text that ends there is smaller. */
  lemma {:induction false} LessExactly(start: string, a: string, b: string)
    ensures Less(start, start + b) <==> b != ""
    ensures a != "" && b != "" && a[0] != b[0] ==> (Less(start + a, start + b) <==> a[0] < b[0])
  {
    if start == "" {
      assert start + a == a && start + b == b;
    } else {
      LessExactly(start[1..], a, b);
      assert (start + a)[1..] == start[1..] + a && (start + b)[1..] == start[1..] + b;
    }
  }

  lemma {:induction false} LessTrichotomy(a: string, b: string)
    ensures Less(a, b) || a == b || Less(b, a)
    ensures !(Less(a, b) && Less(b, a))
    ensures !Less(a, a)
  {
    if a != "" && b != "" {
      LessTrichotomy(a[1..], b[1..]);
      LessTrichotomy(a[1..], a[1..]);
      assert a == [a[0]] + a[1..] && b == [b[0]] + b[1..];
    } else if a != "" {
      LessTrichotomy(a[1..], a[1..]);
    }
  }

  lemma {:induction false} LessTransitive(a: string, b: string, c: string)
    requires Less(a, b) && Less(b, c)
    ensures Less(a, c)
  {
    if a != "" && a[0] == b[0] && b[0] == c[0] {
      LessTransitive(a[1..], b[1..], c[1..]);
    }
  }

  /** Python's `s.rsplit(sep, 1)[-1]`. */
  function LastPart(s: string, sep: char): string {
    var parts := Split(s, sep);
    parts[|parts| - 1]
  }

  lemma LastPartExactly(s: string, sep: char, part: string)
    ensures LastPart(s, sep) == part <==> sep !in part && (s == part || EndsWith(s, [sep] + part))
  {
    JoinSplit(s, sep);
    LastPartEnds(s, sep);
    if sep !in part {
      SplitWhole(part, sep);
      if EndsWith(s, [sep] + part) {
        assert s == s[..|s| - |part| - 1] + [sep] + part;
        LastPartBehind(s[..|s| - |part| - 1], part, sep);
      }
    }
  }

  lemma {:induction false} LastPartEnds(s: string, sep: char)
    ensures s == LastPart(s, sep) || EndsWith(s, [sep] + LastPart(s, sep))
  {
    if sep !in s {
      SplitWhole(s, sep);
    } else {
      var i :| 0 <= i < |s| && s[i] == sep;
      var a, b := s[..i], s[i + 1..];
      assert s == a + [sep] + b;
      LastPartBehind(a, b, sep);
      LastPartEnds(b, sep);
      var end := [sep] + LastPart(b, sep);
      if b == LastPart(b, sep) {
        assert s[|s| - |end|..] == end;
      } else {
        assert s[|s| - |end|..] == b[|b| - |end|..];
      }
    }
  }

  lemma LastPartBehind(a: string, b: string, sep: char)
    ensures LastPart(a + [sep] + b, sep) == LastPart(b, sep)
  {
    SplitConcat(a, b, sep);
  }

  // ---------- Sorting keys ----------

  predicate IsLeast(m: string, keys: set<string>) {
    m in keys && forall x | x in keys :: x == m || Less(m, x)
  }

  lemma {:induction false} LeastExists(keys: set<string>)
    requires keys != {}
    ensures exists m :: IsLeast(m, keys)
    decreases |keys|
  {
    var k :| k in keys;
    var rest := keys - {k};
    if rest == {} {
      assert keys == {k};
      assert IsLeast(k, keys);
    } else {
      LeastExists(rest);
      var m :| IsLeast(m, rest);
      LessTrichotomy(k, m);
      if Less(k, m) {
        forall x | x in keys ensures x == k || Less(k, x) {
          if x in rest && x != m {
            LessTransitive(k, m, x);
          }
        }
        assert IsLeast(k, keys);
      } else {
        assert IsLeast(m, keys);
      }
    }
  }

  lemma LeastIsUnique(a: string, b: string, keys: set<string>)
    requires IsLeast(a, keys) && IsLeast(b, keys)
    ensures a == b
  {
    LessTrichotomy(a, b);
  }

  function Least(keys: set<string>): (m: string)
    requires keys != {}
    ensures IsLeast(m, keys)
  {
    LeastExists(keys);
    assert forall a, b | IsLeast(a, keys) && IsLeast(b, keys) :: a == b by {
      forall a, b | IsLeast(a, keys) && IsLeast(b, keys) ensures a == b { LeastIsUnique(a, b, keys); }
    }
    var m: string :| IsLeast(m, keys);
    m
  }

  /** Python's `sorted(keys)`. */
  function SortKeys(keys: set<string>): (out: seq<string>)
    ensures |out| == |keys| && forall k :: k in out <==> k in keys
    ensures forall i, j | 0 <= i < j < |out| :: Less(out[i], out[j])
    decreases |keys|
  {
    if keys == {} then [] else [Least(keys)] + SortKeys(keys - {Least(keys)})
  }
}

/** Terraform resource addresses. */
module Addresses {
  import opened Texts

  datatype Index = NoIndex | TextIndex(text: string) | NumberIndex(digits: string)

  /** `type.name`, with the instance index in brackets if there is one. */
  function LocalAddress(kind: string, name: string, index: Index): string {
    kind + "." + name + Bracketed(index)
  }

  function Bracketed(index: Index): string {
    match index case NoIndex => "" case TextIndex(t) => "[\"" + t + "\"]" case NumberIndex(d) => "[" + d + "]"
  }

  /** A type holds no dot, a name no bracket, and digits no quote: so an address names one instance of its module. */
  lemma AddressNamesOne(kind: string, name: string, index: Index, kind': string, name': string, index': Index)
    requires '.' !in kind && '.' !in kind' && '[' !in name && '[' !in name'
    requires index.NumberIndex? ==> '\"' !in index.digits
    requires index'.NumberIndex? ==> '\"' !in index'.digits
    requires LocalAddress(kind, name, index) == LocalAddress(kind', name', index')
    ensures kind == kind' && name == name' && index == index'
  {
    var b, b' := Bracketed(index), Bracketed(index');
    ConcatAssociates(kind + ".", name, b);
    ConcatAssociates(kind' + ".", name', b');
    SameHeads(kind, name + b, kind', name' + b', '.');
    OneBracket(name, index, name', index');
  }

  lemma OneBracket(name: string, index: Index, name': string, index': Index)
    requires '[' !in name && '[' !in name'
    requires index.NumberIndex? ==> '\"' !in index.digits
    requires index'.NumberIndex? ==> '\"' !in index'.digits
    requires name + Bracketed(index) == name' + Bracketed(index')
    ensures name == name' && index == index'
  {
    var b, b' := Bracketed(index), Bracketed(index');
    var s, t := name + b, name' + b';
    assert b == "" ==> s == name && '[' !in s;
    assert b' == "" ==> t == name' && '[' !in t;
    assert b != "" ==> s[|name|] == '[';
    assert b' != "" ==> t[|name'|] == '[';
    if b != "" && b' != "" {
      assert b == "[" + b[1..] && b' == "[" + b'[1..];
      assert s == name + ['['] + b[1..] && t == name' + ['['] + b'[1..];
      SameHeads(name, b[1..], name', b'[1..], '[');
      assert b == b';
      SameIndex(index, index');
    }
  }

  lemma SameIndex(index: Index, index': Index)
    requires !index.NoIndex? && !index'.NoIndex? && Bracketed(index) == Bracketed(index')
    requires index.NumberIndex? ==> '\"' !in index.digits
    requires index'.NumberIndex? ==> '\"' !in index'.digits
    ensures index == index'
  {
    if index.TextIndex? && index'.TextIndex? {
      assert index.text == Bracketed(index)[2..|Bracketed(index)| - 2];
      assert index'.text == Bracketed(index')[2..|Bracketed(index')| - 2];
    } else if index.NumberIndex? && index'.NumberIndex? {
      assert index.digits == Bracketed(index)[1..|Bracketed(index)| - 1];
      assert index'.digits == Bracketed(index')[1..|Bracketed(index')| - 1];
    } else if index.TextIndex? {
      QuotesShow(index.text, index'.digits);
    } else {
      QuotesShow(index'.text, index.digits);
    }
  }

  lemma QuotesShow(text: string, digits: string)
    requires '\"' !in digits
    ensures Bracketed(TextIndex(text)) != Bracketed(NumberIndex(digits))
  {
    var a, b := Bracketed(TextIndex(text)), Bracketed(NumberIndex(digits));
    assert a[1] == '\"' && |a| >= 4;
    if digits != "" {
      assert b[1] == digits[0] && digits[0] in digits;
    }
  }

  function Prefixed(prefix: string, address: string): string {
    if prefix != "" then prefix + "." + address else address
  }

  /** How Terraform spells an instance: its module if it has one, its resource, and its key in quotes or its number. */
  lemma AddressIsSpelled(mod: string, kind: string, name: string, key: string)
    ensures LocalAddress(kind, name, NoIndex) == kind + "." + name
    ensures LocalAddress(kind, name, TextIndex(key)) == kind + "." + name + "[\"" + key + "\"]"
    ensures LocalAddress(kind, name, NumberIndex(key)) == kind + "." + name + "[" + key + "]"
    ensures Prefixed(mod, kind + "." + name) == (if mod == "" then "" else mod + ".") + kind + "." + name
  {
    assert kind + "." + name + "" == kind + "." + name;
    assert kind + "." + name + ("[\"" + key + "\"]") == kind + "." + name + "[\"" + key + "\"]";
    assert kind + "." + name + ("[" + key + "]") == kind + "." + name + "[" + key + "]";
    assert mod + "." + (kind + "." + name) == mod + "." + kind + "." + name;
    assert "" + kind == kind;
  }
}
