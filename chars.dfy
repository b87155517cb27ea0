/** Character-level helpers shared by the timestamp formatter and parsers:
    ASCII decimal digits, zero-padded numerals, Python's `str.strip()`,
    first-occurrence search and substring containment. */
module Chars {
  import opened Wrappers

  predicate IsDigit(c: char) { '0' <= c <= '9' }

  function DigitValue(c: char): (n: int)
    requires IsDigit(c)
    ensures 0 <= n <= 9
  {
    c as int - '0' as int
  }

  function DigitChar(n: int): (c: char)
    requires 0 <= n <= 9
    ensures IsDigit(c) && DigitValue(c) == n
  {
    ('0' as int + n) as char
  }

  predicate AllDigits(s: string) { forall i :: 0 <= i < |s| ==> IsDigit(s[i]) }

  /** The decimal value of a string of digits, most significant first. */
  function Number(s: string): (n: int)
    requires AllDigits(s)
    ensures n >= 0
  {
    if s == [] then 0 else Number(s[..|s| - 1]) * 10 + DigitValue(s[|s| - 1])
  }

  /** Two-digit zero-padded numeral, as produced by `%02d`, `%m`, `%H`, ... */
  function Pad2(n: int): (s: string)
    requires 0 <= n < 100
    ensures |s| == 2 && AllDigits(s) && Number(s) == n
  {
    var s := [DigitChar(n / 10), DigitChar(n % 10)];
    NumberOfTwo(s);
    s
  }

  /** Four-digit zero-padded numeral, as produced by `%Y`. */
  function Pad4(n: int): (s: string)
    requires 0 <= n < 10000
    ensures |s| == 4 && AllDigits(s) && Number(s) == n
  {
    var s := Pad2(n / 100) + Pad2(n % 100);
    NumberOfFour(s);
    NumberOfTwo(s[..2]);
    NumberOfTwo(s[2..]);
    assert s[..2] == Pad2(n / 100) && s[2..] == Pad2(n % 100);
    s
  }

  lemma NumberOfTwo(s: string)
    requires |s| == 2 && AllDigits(s)
    ensures Number(s) == DigitValue(s[0]) * 10 + DigitValue(s[1])
  {
    assert s[..1][..0] == [];
    assert Number(s[..1]) == DigitValue(s[0]);
  }

  lemma NumberOfFour(s: string)
    requires |s| == 4 && AllDigits(s)
    ensures Number(s) == DigitValue(s[0]) * 1000 + DigitValue(s[1]) * 100 + DigitValue(s[2]) * 10 + DigitValue(s[3])
  {
    NumberOfTwo(s[..2]);
    assert s[..3][..2] == s[..2];
    assert Number(s[..3]) == Number(s[..2]) * 10 + DigitValue(s[2]);
  }

  /** Every two-digit numeral is the padding of its own value. */
  lemma Pad2OfNumber(s: string)
    requires |s| == 2 && AllDigits(s)
    ensures Number(s) < 100 && Pad2(Number(s)) == s
  {
    NumberOfTwo(s);
    var n := Number(s);
    assert n / 10 == DigitValue(s[0]) && n % 10 == DigitValue(s[1]);
  }

  /** Every four-digit numeral is the padding of its own value. */
  lemma Pad4OfNumber(s: string)
    requires |s| == 4 && AllDigits(s)
    ensures Number(s) < 10000 && Pad4(Number(s)) == s
  {
    NumberOfFour(s);
    NumberOfTwo(s[..2]);
    NumberOfTwo(s[2..]);
    var n := Number(s);
    assert n == Number(s[..2]) * 100 + Number(s[2..]);
    assert n / 100 == Number(s[..2]) && n % 100 == Number(s[2..]);
    Pad2OfNumber(s[..2]);
    Pad2OfNumber(s[2..]);
    assert s == s[..2] + s[2..];
  }

  /** The characters Python's `str.isspace()` accepts, which `str.strip()`
      with no argument removes from both ends. */
  predicate IsSpace(c: char)
  {
    var n := c as int;
    || 0x09 <= n <= 0x0D || 0x1C <= n <= 0x20 || n == 0x85 || n == 0xA0
    || n == 0x1680 || 0x2000 <= n <= 0x200A || n == 0x2028 || n == 0x2029
    || n == 0x202F || n == 0x205F || n == 0x3000
  }

  predicate AllSpace(s: string) { forall i :: 0 <= i < |s| ==> IsSpace(s[i]) }

  lemma AllSpaceAppend(a: string, b: string)
    requires AllSpace(a) && AllSpace(b)
    ensures AllSpace(a + b)
  {
    forall i | 0 <= i < |a + b| ensures IsSpace((a + b)[i]) {
      if i < |a| { assert (a + b)[i] == a[i]; } else { assert (a + b)[i] == b[i - |a|]; }
    }
  }

  /** Drops the leading whitespace. */
  function TrimStart(s: string): (r: string)
    ensures |r| <= |s| && r == s[|s| - |r|..]
    ensures AllSpace(s[..|s| - |r|])
    ensures r == [] || !IsSpace(r[0])
  {
    if |s| > 0 && IsSpace(s[0]) then
      var t := s[1..];
      var r := TrimStart(t);
      assert s[..|s| - |r|] == [s[0]] + t[..|t| - |r|];
      AllSpaceAppend([s[0]], t[..|t| - |r|]);
      assert t[|t| - |r|..] == s[|s| - |r|..];
      r
    else s
  }

  /** Drops the trailing whitespace. */
  function TrimEnd(s: string): (r: string)
    ensures |r| <= |s| && r == s[..|r|]
    ensures AllSpace(s[|r|..])
    ensures r == [] || !IsSpace(r[|r| - 1])
  {
    if |s| > 0 && IsSpace(s[|s| - 1]) then
      var t := s[..|s| - 1];
      var r := TrimEnd(t);
      assert s[|r|..] == t[|r|..] + [s[|s| - 1]];
      AllSpaceAppend(t[|r|..], [s[|s| - 1]]);
      assert t[..|r|] == s[..|r|];
      r
    else s
  }

  /** Python's `s.strip()`. */
  function Strip(s: string): (r: string)
    ensures |r| <= |s|
  {
    TrimEnd(TrimStart(s))
  }

  /** `Strip` cuts a text into whitespace, the result, and whitespace. */
  lemma StripShape(s: string)
    ensures var r := Strip(s);
            exists i | 0 <= i <= |s| - |r| :: s[i..i + |r|] == r && AllSpace(s[..i]) && AllSpace(s[i + |r|..])
  {
    var i, j := StripBounds(s);
    var r := Strip(s);
    assert j == i + |r|;
    assert s[i..i + |r|] == r && AllSpace(s[..i]) && AllSpace(s[i + |r|..]);
  }

  /** Where in `p` the text `Strip` keeps lies. */
  lemma StripBounds(p: string) returns (i: int, j: int)
    ensures 0 <= i <= j <= |p| && p[i..j] == Strip(p)
    ensures AllSpace(p[..i]) && AllSpace(p[j..])
  {
    var q := TrimStart(p);
    i := |p| - |q|;
    assert AllSpace(p[..i]) && q == p[i..];
    var c := TrimEnd(q);
    j := i + |c|;
    assert p[i..j] == c && p[j..] == q[|c|..] by {
      SuffixSlices(p, i, |c|);
    }
    assert c == Strip(p);
  }

  /** Slices of a suffix are slices of the whole. */
  lemma SuffixSlices(p: string, i: int, n: int)
    requires 0 <= i <= |p| && 0 <= n <= |p| - i
    ensures p[i..][..n] == p[i..i + n] && p[i..][n..] == p[i + n..]
  {
  }

  /** What `Strip` keeps neither starts nor ends with whitespace, so no
      more whitespace could be cut. */
  lemma StripEnds(s: string)
    ensures var r := Strip(s); r == [] || (!IsSpace(r[0]) && !IsSpace(r[|r| - 1]))
  {
    var t := TrimStart(s);
    var r := TrimEnd(t);
    if r != [] {
      assert r[0] == t[0];
    }
  }

  /** Whitespace around a text that neither starts nor ends with whitespace
      is exactly what `Strip` removes. */
  lemma {:induction false} StripPadded(w1: string, x: string, w2: string)
    requires AllSpace(w1) && AllSpace(w2)
    requires x != [] && !IsSpace(x[0]) && !IsSpace(x[|x| - 1])
    ensures Strip(w1 + x + w2) == x
  {
    assert w1 + x + w2 == w1 + (x + w2);
    TrimStartSpaces(w1, x + w2);
    TrimEndSpaces(x, w2);
  }

  lemma {:induction false} TrimStartSpaces(w: string, x: string)
    requires AllSpace(w) && x != [] && !IsSpace(x[0])
    ensures TrimStart(w + x) == x
  {
    if w != [] {
      assert (w + x)[1..] == w[1..] + x;
      TrimStartSpaces(w[1..], x);
    }
  }

  lemma {:induction false} TrimEndSpaces(x: string, w: string)
    requires AllSpace(w) && x != [] && !IsSpace(x[|x| - 1])
    ensures TrimEnd(x + w) == x
  {
    if w != [] {
      assert (x + w)[..|x + w| - 1] == x + w[..|w| - 1];
      TrimEndSpaces(x, w[..|w| - 1]);
    } else {
      assert x + w == x;
    }
  }

  /** Index of the first occurrence of `c` in `s`, if any. */
  function IndexOf(s: string, c: char): (r: Option<nat>)
    ensures r.None? <==> c !in s
    ensures r.Some? ==> r.value < |s| && s[r.value] == c && c !in s[..r.value]
  {
    if s == [] then None
    else if s[0] == c then Some(0)
    else
      match IndexOf(s[1..], c)
      case None => None
      case Some(k) =>
        assert s[..k + 1] == [s[0]] + s[1..][..k];
        Some(k + 1)
  }

  /** `needle` occurs in `hay` as a contiguous substring (pandas
      `str.contains` on a pattern with no regular-expression operators). */
  predicate Contains(hay: string, needle: string)
  {
    exists i | 0 <= i <= |hay| :: OccursAt(hay, needle, i)
  }

  predicate OccursAt(hay: string, needle: string, i: int)
  {
    0 <= i && i + |needle| <= |hay| && hay[i..i + |needle|] == needle
  }

  /** A text contains each of its prefixes. */
  lemma ContainsPrefix(p: string, q: string)
    ensures Contains(p + q, p)
  {
    assert OccursAt(p + q, p, 0) by { assert (p + q)[0..|p|] == p; }
  }

  /** A text contains whatever occurs anywhere inside it, not only at its
      start. */
  lemma ContainsInfix(a: string, n: string, b: string)
    ensures Contains(a + n + b, n)
  {
    assert OccursAt(a + n + b, n, |a|) by { assert (a + n + b)[|a|..|a| + |n|] == n; }
  }
}
