/**
 * The .NET and JavaScript string operations the core relies on:
 * `char.IsWhiteSpace`, `Trim`, `Split`, `string.Join` / `Array.join`,
 * `Replace` of one character and the decimal rendering of an integer.
 */
module Text {

  /** `char.IsWhiteSpace`: the Unicode space separators, line and paragraph
      separators, and U+0009..U+000D, U+0085, U+00A0. */
  predicate IsWhiteSpace(c: char) {
    || ('\t' <= c <= '\r') || c == ' ' || c == '\U{85}' || c == '\U{A0}' || c == '\U{1680}'
    || ('\U{2000}' <= c <= '\U{200A}') || c == '\U{2028}' || c == '\U{2029}'
    || c == '\U{202F}' || c == '\U{205F}' || c == '\U{3000}'
  }

  predicate AllWhiteSpace(s: string) {
    forall k :: 0 <= k < |s| ==> IsWhiteSpace(s[k])
  }

  /** `string.IsNullOrWhiteSpace` for a string that is present. */
  predicate IsBlank(s: string) {
    AllWhiteSpace(s)
  }

  function TrimStart(s: string): (r: string)
    ensures |r| <= |s| && r == s[|s| - |r|..]
    ensures AllWhiteSpace(s[..|s| - |r|])
    ensures r == [] || !IsWhiteSpace(r[0])
  {
    if |s| > 0 && IsWhiteSpace(s[0]) then
      var r := TrimStart(s[1..]);
      assert s[..|s| - |r|] == [s[0]] + s[1..][..|s| - 1 - |r|];
      r
    else s
  }

  function TrimEnd(s: string): (r: string)
    ensures |r| <= |s| && r == s[..|r|]
    ensures AllWhiteSpace(s[|r|..])
    ensures r == [] || !IsWhiteSpace(r[|r| - 1])
  {
    if |s| > 0 && IsWhiteSpace(s[|s| - 1]) then
      var r := TrimEnd(s[..|s| - 1]);
      assert s[|r|..] == s[..|s| - 1][|r|..] + [s[|s| - 1]];
      r
    else s
  }

  /** `String.Trim()`: what is left of `s` once the white space at both ends is cut off. */
  function Trim(s: string): (r: string)
    ensures var t := TrimStart(s);
            AllWhiteSpace(s[..|s| - |t|]) && t == s[|s| - |t|..] && |r| <= |t| && r == t[..|r|] && AllWhiteSpace(t[|r|..])
    ensures r == [] || (!IsWhiteSpace(r[0]) && !IsWhiteSpace(r[|r| - 1]))
  {
    TrimEnd(TrimStart(s))
  }

  lemma TrimAllWhiteSpace(s: string)
    requires AllWhiteSpace(s)
    ensures Trim(s) == ""
  {
  }

  /** Two concatenations that agree, with first parts of the same length, agree part by part;
      the same holds when the first parts are equal. */
  lemma SamePrefix(a: string, b: string, c: string, d: string)
    requires a + b == c + d
    requires |a| == |c| || |b| == |d|
    ensures a == c && b == d
  {
    assert (a + b)[..|a|] == a && (c + d)[..|c|] == c;
    assert (a + b)[|a|..] == b && (c + d)[|c|..] == d;
  }

  /** `s.Replace(from, to)` for single characters. */
  function ReplaceChar(s: string, from: char, to: char): (r: string)
    ensures |r| == |s|
    ensures forall k :: 0 <= k < |s| ==> r[k] == (if s[k] == from then to else s[k])
  {
    if s == [] then [] else [if s[0] == from then to else s[0]] + ReplaceChar(s[1..], from, to)
  }

  /** `s.Split(c)`: the pieces between occurrences of `c`, empty pieces kept;
      there is always at least one piece. */
  function Split(s: string, c: char): (r: seq<string>)
    ensures |r| >= 1
    ensures forall k :: 0 <= k < |r| ==> c !in r[k]
  {
    if s == [] then [""]
    else
      var rest := Split(s[1..], c);
      if s[0] == c then [""] + rest else [[s[0]] + rest[0]] + rest[1..]
  }

  /** The entries of `xs` that are not empty (`StringSplitOptions.RemoveEmptyEntries`). */
  function NonEmpty(xs: seq<string>): (r: seq<string>)
    ensures forall k :: 0 <= k < |r| ==> r[k] != "" && r[k] in xs
    ensures forall x :: x in xs && x != "" ==> x in r
  {
    if xs == [] then []
    else if xs[0] == "" then NonEmpty(xs[1..])
    else [xs[0]] + NonEmpty(xs[1..])
  }

  /** `string.Join(sep, xs)` / `xs.join(sep)`. */
  function Join(sep: string, xs: seq<string>): string {
    if xs == [] then ""
    else if |xs| == 1 then xs[0]
    else xs[0] + sep + Join(sep, xs[1..])
  }

  lemma {:induction false} JoinSplit(s: string, c: char)
    ensures Join([c], Split(s, c)) == s
  {
    if s != [] {
      var rest := Split(s[1..], c);
      JoinSplit(s[1..], c);
      if s[0] == c {
        assert Split(s, c) == [""] + rest;
      } else {
        var r := [[s[0]] + rest[0]] + rest[1..];
        assert Split(s, c) == r;
        if |rest| == 1 {
          assert Join([c], r) == [s[0]] + rest[0];
        } else {
          assert r[1..] == rest[1..];
          assert Join([c], rest) == rest[0] + [c] + Join([c], rest[1..]);
        }
      }
    }
  }

  lemma {:induction false} SplitNoSeparator(a: string, c: char)
    requires c !in a
    ensures Split(a, c) == [a]
  {
    if a != [] {
      SplitNoSeparator(a[1..], c);
      assert a[0] != c;
      assert [a[0]] + a[1..] == a;
    }
  }

  lemma {:induction false} SplitAtSeparator(a: string, b: string, c: char)
    requires c !in a
    ensures Split(a + [c] + b, c) == [a] + Split(b, c)
  {
    if a == [] {
      assert a + [c] + b == [c] + b;
      assert ([c] + b)[1..] == b;
    } else {
      var s := a + [c] + b;
      assert s[0] == a[0] != c;
      assert s[1..] == a[1..] + [c] + b;
      SplitAtSeparator(a[1..], b, c);
      assert [a[0]] + a[1..] == a;
    }
  }

  /** A text, then a field between two separators: the split yields both. */
  lemma SplitQuotedPair(a: string, x: string, b: string, c: char)
    requires c !in a && c !in x
    ensures Split(a + ([c] + x + [c]) + b, c) == [a, x] + Split(b, c)
  {
    SplitAtSeparator(x, b, c);
    assert a + ([c] + x + [c]) + b == a + [c] + (x + [c] + b);
    SplitAtSeparator(a, x + [c] + b, c);
  }

  /** A command line of plain texts and fields quoted by `c` splits on `c`
      into exactly those texts and fields. */
  lemma SplitTwoQuoted(p0: string, x1: string, p1: string, x2: string, c: char)
    requires c !in p0 && c !in x1 && c !in p1 && c !in x2
    ensures Split(p0 + ([c] + x1 + [c]) + p1 + ([c] + x2 + [c]), c) == [p0, x1, p1, x2, ""]
  {
    var q2 := [c] + x2 + [c];
    SplitQuotedPair(p1, x2, "", c);
    assert p1 + q2 + "" == p1 + q2;
    SplitQuotedPair(p0, x1, p1 + q2, c);
    assert p0 + ([c] + x1 + [c]) + p1 + q2 == p0 + ([c] + x1 + [c]) + (p1 + q2);
  }

  lemma SplitThreeQuoted(p0: string, x1: string, p1: string, x2: string, p2: string, x3: string, c: char)
    requires c !in p0 && c !in x1 && c !in p1 && c !in x2 && c !in p2 && c !in x3
    ensures Split(p0 + ([c] + x1 + [c]) + p1 + ([c] + x2 + [c]) + p2 + ([c] + x3 + [c]), c)
         == [p0, x1, p1, x2, p2, x3, ""]
  {
    var q1, q2, q3 := [c] + x1 + [c], [c] + x2 + [c], [c] + x3 + [c];
    var head := p0 + q1;
    Regroup(head, p1, q2);
    Regroup(head, p1 + q2, p2);
    Regroup(head, p1 + q2 + p2, q3);
    SplitTwoQuoted(p1, x2, p2, x3, c);
    SplitQuotedPair(p0, x1, p1 + q2 + p2 + q3, c);
  }

  lemma Regroup(a: string, b: string, c: string)
    ensures a + b + c == a + (b + c)
  {
  }

  lemma {:induction false} SplitJoin(xs: seq<string>, c: char)
    requires |xs| >= 1
    requires forall k :: 0 <= k < |xs| ==> c !in xs[k]
    ensures Split(Join([c], xs), c) == xs
  {
    if |xs| == 1 {
      SplitNoSeparator(xs[0], c);
    } else {
      SplitJoin(xs[1..], c);
      SplitAtSeparator(xs[0], Join([c], xs[1..]), c);
      assert [xs[0]] + xs[1..] == xs;
    }
  }

  lemma {:induction false} JoinAvoids(sep: string, xs: seq<string>, c: char)
    requires c !in sep
    requires forall k :: 0 <= k < |xs| ==> c !in xs[k]
    ensures c !in Join(sep, xs)
  {
    if |xs| > 1 {
      JoinAvoids(sep, xs[1..], c);
    }
  }

  /** `s` with every occurrence of `c` taken out. */
  function RemoveChar(s: string, c: char): (r: string)
    ensures c !in r
    ensures forall x :: x in r ==> x in s
  {
    if s == [] then [] else (if s[0] == c then [] else [s[0]]) + RemoveChar(s[1..], c)
  }

  /** Replacing `a` by `b` and then removing `b` removes both. */
  lemma {:induction false} RemoveReplaced(s: string, a: char, b: char)
    ensures RemoveChar(ReplaceChar(s, a, b), b) == RemoveChar(RemoveChar(s, a), b)
  {
    if s != [] {
      RemoveReplaced(s[1..], a, b);
      assert ReplaceChar(s, a, b)[1..] == ReplaceChar(s[1..], a, b);
      if s[0] == a {
        assert RemoveChar(s, a) == RemoveChar(s[1..], a);
      } else {
        assert RemoveChar(s, a) == [s[0]] + RemoveChar(s[1..], a);
        assert (RemoveChar(s, a))[1..] == RemoveChar(s[1..], a);
      }
    }
  }

  /** Every character of the trimmed text comes from the text. */
  lemma TrimIn(s: string)
    ensures forall x :: x in Trim(s) ==> x in s
  {
    var t := TrimStart(s);
    assert forall x :: x in t ==> x in s;
  }

  /** Concatenation: `Join` with the empty separator. */
  lemma JoinNothingCons(x: string, ys: seq<string>)
    ensures Join("", [x] + ys) == x + Join("", ys)
  {
    if ys != [] {
      assert ([x] + ys)[1..] == ys;
    }
  }

  /** Gluing the pieces of a split back together without the separator
      leaves the text with the separator removed. */
  lemma {:induction false} ConcatSplit(s: string, c: char)
    ensures Join("", Split(s, c)) == RemoveChar(s, c)
  {
    if s != [] {
      var rest := Split(s[1..], c);
      ConcatSplit(s[1..], c);
      if s[0] == c {
        JoinNothingCons("", rest);
      } else {
        JoinNothingCons([s[0]] + rest[0], rest[1..]);
        JoinNothingCons(rest[0], rest[1..]);
        assert [rest[0]] + rest[1..] == rest;
      }
    }
  }

  /** Dropping empty entries does not change the concatenation. */
  lemma {:induction false} ConcatNonEmpty(xs: seq<string>)
    ensures Join("", NonEmpty(xs)) == Join("", xs)
  {
    if xs != [] {
      ConcatNonEmpty(xs[1..]);
      JoinNothingCons(xs[0], xs[1..]);
      assert [xs[0]] + xs[1..] == xs;
      if xs[0] != "" {
        JoinNothingCons(xs[0], NonEmpty(xs[1..]));
      }
    }
  }

  /** A character absent from the text is absent from every piece of it. */
  lemma {:induction false} SplitAvoids(s: string, c: char, d: char)
    requires d !in s
    ensures forall k :: 0 <= k < |Split(s, c)| ==> d !in Split(s, c)[k]
  {
    if s != [] {
      assert forall x :: x in s[1..] ==> x in s;
      SplitAvoids(s[1..], c, d);
    }
  }

  /** The longest prefix of `s` holding no `c`. */
  function Word(s: string, c: char): (w: string)
    ensures |w| <= |s| && w == s[..|w|] && c !in w
    ensures |w| < |s| ==> s[|w|] == c
  {
    if s == [] || s[0] == c then "" else [s[0]] + Word(s[1..], c)
  }

  /** The maximal runs of characters other than `c`, left to right: a scanner
      that skips separators and takes one whole run at a time. */
  function Words(s: string, c: char): seq<string>
    decreases |s|
  {
    if s == [] then []
    else if s[0] == c then Words(s[1..], c)
    else
      var w := Word(s, c);
      [w] + Words(s[|w|..], c)
  }

  /** Splitting at the first separator: the first piece is the longest
      separator-free prefix, the rest splits the text after the separator. */
  lemma {:induction false} SplitFirst(s: string, c: char)
    ensures Split(s, c)[0] == Word(s, c)
    ensures |Word(s, c)| == |s| ==> Split(s, c) == [s]
    ensures |Word(s, c)| < |s| ==> Split(s, c)[1..] == Split(s[|Word(s, c)| + 1..], c)
  {
    if s != [] && s[0] != c {
      SplitFirst(s[1..], c);
      assert [s[0]] + s[1..] == s;
      if |Word(s, c)| < |s| {
        assert s[1..][|Word(s[1..], c)| + 1..] == s[|Word(s, c)| + 1..];
      }
    }
  }

  /** Dropping the empty pieces of a split leaves exactly the maximal runs. */
  lemma {:induction false} NonEmptySplitWords(s: string, c: char)
    ensures NonEmpty(Split(s, c)) == Words(s, c)
    decreases |s|
  {
    if s == [] {
    } else if s[0] == c {
      NonEmptySplitWords(s[1..], c);
      assert Split(s, c) == [""] + Split(s[1..], c);
      assert NonEmpty([""] + Split(s[1..], c)) == NonEmpty(Split(s[1..], c)) by {
        assert ([""] + Split(s[1..], c))[1..] == Split(s[1..], c);
      }
    } else {
      var w := Word(s, c);
      SplitFirst(s, c);
      var pieces := Split(s, c);
      assert pieces == [w] + pieces[1..];
      assert NonEmpty(pieces) == [w] + NonEmpty(pieces[1..]);
      if |w| == |s| {
        assert s[|w|..] == [];
      } else {
        var after := s[|w| + 1..];
        NonEmptySplitWords(after, c);
        assert s[|w|..][1..] == after;
      }
    }
  }

  function DigitChar(d: nat): (c: char)
    requires d < 10
    ensures '0' <= c <= '9'
  {
    "0123456789"[d]
  }

  function DigitValue(c: char): nat {
    if '0' <= c <= '9' then (c as int - '0' as int) else 0
  }

  /** Decimal rendering of a natural number, as string interpolation prints it. */
  function NatToString(n: nat): (r: string)
    ensures |r| >= 1
    ensures forall k :: 0 <= k < |r| ==> '0' <= r[k] <= '9'
  {
    if n < 10 then [DigitChar(n)] else NatToString(n / 10) + [DigitChar(n % 10)]
  }

  /** Decimal rendering of an integer, with a leading '-' when negative. */
  function IntToString(n: int): (r: string)
    ensures |r| >= 1
    ensures (r[0] == '-') == (n < 0)
  {
    if n < 0 then "-" + NatToString(-n) else NatToString(n)
  }

  /** Reads a string of decimal digits back as a number. */
  function ParseDigits(s: string): nat {
    if s == [] then 0 else ParseDigits(s[..|s| - 1]) * 10 + DigitValue(s[|s| - 1])
  }

  lemma {:induction false} ParseNatToString(n: nat)
    ensures ParseDigits(NatToString(n)) == n
  {
    var r := NatToString(n);
    if n >= 10 {
      ParseNatToString(n / 10);
      assert r[..|r| - 1] == NatToString(n / 10);
    }
  }

  lemma NatToStringInjective(m: nat, n: nat)
    requires NatToString(m) == NatToString(n)
    ensures m == n
  {
    ParseNatToString(m);
    ParseNatToString(n);
  }

  lemma IntToStringInjective(m: int, n: int)
    requires IntToString(m) == IntToString(n)
    ensures m == n
  {
    var sm, sn := IntToString(m), IntToString(n);
    if m < 0 {
      assert n < 0;
      assert sm[1..] == NatToString(-m);
      assert sn[1..] == NatToString(-n);
      NatToStringInjective(-m, -n);
    } else {
      assert n >= 0;
      NatToStringInjective(m, n);
    }
  }
}
