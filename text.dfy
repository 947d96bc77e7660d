/**
  String helpers shared by the news and lotto modules: Python's notion of
  whitespace and `str.strip`, prefix and substring tests, ASCII lower-casing,
  `str.replace`, `join`/`split` on a separator, and decimal rendering of
  integers as Python's `str(n)` and JavaScript's `String(n)` produce it.
*/
module Text {

  /** The characters for which Python's `str.isspace` holds. */
  predicate IsSpace(c: char) {
    || c == ' '
    || ('\t' <= c <= '\r')
    || ('\U{1C}' <= c <= '\U{1F}')
    || c == '\U{85}'
    || c == '\U{A0}'
    || c == '\U{1680}'
    || ('\U{2000}' <= c <= '\U{200A}')
    || c == '\U{2028}'
    || c == '\U{2029}'
    || c == '\U{202F}'
    || c == '\U{205F}'
    || c == '\U{3000}'
  }

  predicate Blank(s: string) {
    forall i :: 0 <= i < |s| ==> IsSpace(s[i])
  }

  /** Python `str.lstrip()`: drops the leading whitespace and nothing else. */
  function TrimLeft(s: string): (r: string)
    ensures |r| <= |s| && r == s[|s| - |r|..]
    ensures Blank(s[..|s| - |r|])
    ensures r != [] ==> !IsSpace(r[0])
  {
    if s != [] && IsSpace(s[0]) then
      var t := s[1..];
      var r := TrimLeft(t);
      assert s[..|s| - |r|] == [s[0]] + t[..|t| - |r|];
      assert s[|s| - |r|..] == t[|t| - |r|..];
      BlankCons(s[0], t[..|t| - |r|]);
      r
    else s
  }

  /** Python `str.rstrip()`: drops the trailing whitespace and nothing else. */
  function TrimRight(s: string): (r: string)
    ensures |r| <= |s| && r == s[..|r|]
    ensures Blank(s[|r|..])
    ensures r != [] ==> !IsSpace(r[|r| - 1])
  {
    if s != [] && IsSpace(s[|s| - 1]) then
      var t := s[..|s| - 1];
      var r := TrimRight(t);
      assert s[|r|..] == t[|r|..] + [s[|s| - 1]];
      assert s[..|r|] == t[..|r|];
      BlankSnoc(t[|r|..], s[|s| - 1]);
      r
    else s
  }

  lemma BlankCons(c: char, a: string)
    requires IsSpace(c) && Blank(a)
    ensures Blank([c] + a)
  {
    assert forall i :: 1 <= i <= |a| ==> ([c] + a)[i] == a[i - 1];
  }

  lemma BlankSnoc(a: string, c: char)
    requires Blank(a) && IsSpace(c)
    ensures Blank(a + [c])
  {
    assert forall i :: 0 <= i < |a| ==> (a + [c])[i] == a[i];
  }

  /** Python `str.strip()`. */
  function Strip(s: string): string {
    TrimRight(TrimLeft(s))
  }

  /** A non-empty strip has no whitespace at either end. */
  lemma StripEnds(s: string)
    ensures Strip(s) != [] ==> !IsSpace(Strip(s)[0]) && !IsSpace(Strip(s)[|Strip(s)| - 1])
  {
    var l := TrimLeft(s);
    var r := TrimRight(l);
    assert r == l[..|r|];
  }

  /** `Strip(s)` is the infix of `s` left once the blank ends are cut off. */
  lemma StripIsInfix(s: string)
    ensures exists i, j :: 0 <= i <= j <= |s| && Strip(s) == s[i..j] && Blank(s[..i]) && Blank(s[j..])
  {
    var l := TrimLeft(s);
    var i := |s| - |l|;
    var r := TrimRight(l);
    assert Strip(s) == s[i..i + |r|];
    assert l[|r|..] == s[i + |r|..];
  }

  /** Stripping yields the empty string exactly for blank strings. */
  lemma StripEmptyIffBlank(s: string)
    ensures Strip(s) == [] <==> Blank(s)
  {
    var l := TrimLeft(s);
    var i := |s| - |l|;
    if Strip(s) == [] {
      assert Blank(l[0..]) && l == [];
      assert s[..i] == s;
    } else {
      assert l[0] == s[i];
    }
  }

  /** A string with no blank end is its own strip. */
  lemma StripFixed(s: string)
    requires s == [] || (!IsSpace(s[0]) && !IsSpace(s[|s| - 1]))
    ensures Strip(s) == s
  {
  }

  predicate StartsWith(s: string, prefix: string) {
    |prefix| <= |s| && s[..|prefix|] == prefix
  }

  /** Python `sub in s`. */
  predicate Contains(s: string, sub: string)
    decreases |s|
  {
    StartsWith(s, sub) || (s != [] && Contains(s[1..], sub))
  }

  lemma {:induction false} ContainsAt(s: string, sub: string, k: nat)
    requires k + |sub| <= |s| && s[k..k + |sub|] == sub
    ensures Contains(s, sub)
    decreases k
  {
    if k > 0 {
      assert s[1..][k - 1..k - 1 + |sub|] == s[k..k + |sub|];
      ContainsAt(s[1..], sub, k - 1);
    }
  }

  lemma {:induction false} ContainsIndex(s: string, sub: string) returns (k: nat)
    requires Contains(s, sub)
    ensures k + |sub| <= |s| && s[k..k + |sub|] == sub
    decreases |s|
  {
    if StartsWith(s, sub) {
      k := 0;
    } else {
      var k' := ContainsIndex(s[1..], sub);
      k := k' + 1;
      assert s[1..][k'..k' + |sub|] == s[k..k + |sub|];
    }
  }

  /** A substring of the middle part is a substring of the whole. */
  lemma ContainsInfix(pre: string, t: string, post: string, sub: string)
    requires Contains(t, sub)
    ensures Contains(pre + t + post, sub)
  {
    var k := ContainsIndex(t, sub);
    var s := pre + t + post;
    assert s[|pre| + k..|pre| + k + |sub|] == t[k..k + |sub|];
    ContainsAt(s, sub, |pre| + k);
  }

  lemma ContainsAfter(pre: string, t: string, sub: string)
    requires Contains(t, sub)
    ensures Contains(pre + t, sub)
  {
    ContainsInfix(pre, t, "", sub);
    assert pre + t + "" == pre + t;
  }

  /** A text opening with `pre + sub` contains `sub`. */
  lemma ContainsAfterPrefix(s: string, pre: string, sub: string)
    requires StartsWith(s, pre + sub)
    ensures Contains(s, sub)
  {
    assert s[|pre|..|pre| + |sub|] == (pre + sub)[|pre|..];
    ContainsAt(s, sub, |pre|);
  }

  function LowerChar(c: char): char {
    if 'A' <= c <= 'Z' then (c as int + 32) as char else c
  }

  /** `str.lower()` restricted to the ASCII letters. */
  function LowerAscii(s: string): (r: string)
    ensures |r| == |s|
    ensures forall i :: 0 <= i < |s| ==> r[i] == LowerChar(s[i])
  {
    seq(|s|, i requires 0 <= i < |s| => LowerChar(s[i]))
  }

  /** Python `s.replace(pat, rep)`: leftmost, non-overlapping occurrences. */
  function ReplaceAll(s: string, pat: string, rep: string): (r: string)
    requires pat != []
    ensures !Contains(s, pat) ==> r == s
    ensures |rep| <= |pat| ==> |r| <= |s|
    decreases |s|
  {
    if |s| < |pat| then s
    else if s[..|pat|] == pat then rep + ReplaceAll(s[|pat|..], pat, rep)
    else [s[0]] + ReplaceAll(s[1..], pat, rep)
  }

  /** An occurrence at the front is the one replaced first. */
  lemma ReplaceAllLeading(pat: string, s: string, rep: string)
    requires pat != []
    ensures ReplaceAll(pat + s, pat, rep) == rep + ReplaceAll(s, pat, rep)
  {
    var t := pat + s;
    assert t[..|pat|] == pat && t[|pat|..] == s;
  }

  /** `t` is made of whitespace characters and whole copies of `pat`, in any order. */
  predicate SpacesAnd(t: string, pat: string)
    requires pat != []
    decreases |t|
  {
    || t == []
    || (IsSpace(t[0]) && SpacesAnd(t[1..], pat))
    || (|pat| <= |t| && t[..|pat|] == pat && SpacesAnd(t[|pat|..], pat))
  }

  /** Such a text holds no character other than whitespace and those of `pat`. */
  lemma {:induction false} SpacesAndAvoids(t: string, pat: string, c: char)
    requires pat != [] && SpacesAnd(t, pat)
    requires !IsSpace(c) && c !in pat
    ensures c !in t
    decreases |t|
  {
    if t == [] {
    } else if IsSpace(t[0]) && SpacesAnd(t[1..], pat) {
      SpacesAndAvoids(t[1..], pat, c);
      assert t == [t[0]] + t[1..];
    } else {
      SpacesAndAvoids(t[|pat|..], pat, c);
      assert t == t[..|pat|] + t[|pat|..];
    }
  }

  /**
    Replacing every copy of `pat` by whitespace leaves such a text blank,
    provided `pat` does not open with whitespace (so that no space is taken
    for the start of a copy).
  */
  lemma {:induction false} ReplaceAllBlank(t: string, pat: string, rep: string)
    requires pat != [] && !IsSpace(pat[0]) && Blank(rep)
    requires SpacesAnd(t, pat)
    ensures Blank(ReplaceAll(t, pat, rep))
    decreases |t|
  {
    if t == [] {
    } else if IsSpace(t[0]) && SpacesAnd(t[1..], pat) {
      ReplaceAllBlank(t[1..], pat, rep);
      if |t| < |pat| {
        assert ReplaceAll(t[1..], pat, rep) == t[1..];
        BlankCons(t[0], t[1..]);
        assert t == [t[0]] + t[1..];
      } else {
        assert t[..|pat|][0] != pat[0];
        BlankCons(t[0], ReplaceAll(t[1..], pat, rep));
      }
    } else {
      ReplaceAllBlank(t[|pat|..], pat, rep);
      var r := ReplaceAll(t[|pat|..], pat, rep);
      assert ReplaceAll(t, pat, rep) == rep + r;
      assert forall i :: |rep| <= i < |rep + r| ==> (rep + r)[i] == r[i - |rep|];
    }
  }

  /** Python `sep.join(parts)` and JavaScript `parts.join(sep)`. */
  function Join(parts: seq<string>, sep: string): string
    decreases |parts|
  {
    if |parts| == 0 then ""
    else if |parts| == 1 then parts[0]
    else parts[0] + sep + Join(parts[1..], sep)
  }

  /** A join avoids a character that neither the parts nor the separator hold. */
  lemma {:induction false} JoinAvoids(parts: seq<string>, sep: string, c: char)
    requires c !in sep
    requires forall i :: 0 <= i < |parts| ==> c !in parts[i]
    ensures c !in Join(parts, sep)
    decreases |parts|
  {
    if |parts| > 1 {
      JoinAvoids(parts[1..], sep, c);
    }
  }

  /** `t` glued onto the first part of a join. */
  lemma PrependToJoin(t: string, parts: seq<string>, sep: string)
    requires |parts| >= 1
    ensures t + Join(parts, sep) == Join([t + parts[0]] + parts[1..], sep)
  {
    var q := [t + parts[0]] + parts[1..];
    assert q[1..] == parts[1..];
  }

  /** `t` put in front of every part. */
  function Prefixed(t: string, parts: seq<string>): (r: seq<string>)
    ensures |r| == |parts|
    ensures forall i :: 0 <= i < |parts| ==> r[i] == t + parts[i]
  {
    seq(|parts|, i requires 0 <= i < |parts| => t + parts[i])
  }

  /**
    Joining on a separator `[c] + t` is joining on `[c]` once every part
    but the first carries `t` in front.
  */
  lemma {:induction false} JoinShift(parts: seq<string>, c: char, t: string)
    requires |parts| >= 1
    ensures Join(parts, [c] + t) == Join([parts[0]] + Prefixed(t, parts[1..]), [c])
    decreases |parts|
  {
    if |parts| > 1 {
      var rest := parts[1..];
      JoinShift(rest, c, t);
      assert Prefixed(t, rest) == [t + rest[0]] + Prefixed(t, rest[1..]);
      PrependToJoin(t, [rest[0]] + Prefixed(t, rest[1..]), [c]);
      assert ([rest[0]] + Prefixed(t, rest[1..]))[1..] == Prefixed(t, rest[1..]);
      var q := [parts[0]] + Prefixed(t, rest);
      assert q[1..] == Prefixed(t, rest);
    }
  }

  /** Python `s.split(c)` and JavaScript `s.split(c)` on a one-character separator. */
  function SplitOn(s: string, c: char): (r: seq<string>)
    ensures |r| >= 1
    decreases |s|
  {
    if s == [] then [[]]
    else
      var rest := SplitOn(s[1..], c);
      if s[0] == c then [[]] + rest else [[s[0]] + rest[0]] + rest[1..]
  }

  lemma {:induction false} SplitOnFree(s: string, c: char)
    requires c !in s
    ensures SplitOn(s, c) == [s]
    decreases |s|
  {
    if s != [] {
      SplitOnFree(s[1..], c);
      assert [s[0]] + s[1..] == s;
    }
  }

  lemma {:induction false} SplitOnAfterPiece(p: string, c: char, t: string)
    requires c !in p
    ensures SplitOn(p + [c] + t, c) == [p] + SplitOn(t, c)
    decreases |p|
  {
    if p == [] {
      assert (p + [c] + t)[1..] == t;
    } else {
      assert (p + [c] + t)[1..] == p[1..] + [c] + t;
      SplitOnAfterPiece(p[1..], c, t);
      assert [p[0]] + p[1..] == p;
    }
  }

  /**
    Splitting a join on its separator gives the parts back, provided no part
    holds the separator.
  */
  lemma {:induction false} SplitJoin(parts: seq<string>, c: char)
    requires |parts| >= 1
    requires forall i :: 0 <= i < |parts| ==> c !in parts[i]
    ensures SplitOn(Join(parts, [c]), c) == parts
    decreases |parts|
  {
    if |parts| == 1 {
      SplitOnFree(parts[0], c);
    } else {
      SplitJoin(parts[1..], c);
      SplitOnAfterPiece(parts[0], c, Join(parts[1..], [c]));
      assert [parts[0]] + parts[1..] == parts;
    }
  }

  function DigitChar(d: nat): char
    requires d < 10
  {
    "0123456789"[d]
  }

  predicate IsDigit(c: char) {
    '0' <= c <= '9'
  }

  /** Decimal digits of a natural number, without leading zeros. */
  function NatToDecimal(n: nat): (r: string)
    ensures r != []
    ensures forall i :: 0 <= i < |r| ==> IsDigit(r[i])
    ensures |r| > 1 ==> r[0] != '0'
    decreases n
  {
    if n < 10 then [DigitChar(n)] else NatToDecimal(n / 10) + [DigitChar(n % 10)]
  }

  /** Python `str(i)` and JavaScript `String(i)` for an integer value. */
  function IntToDecimal(i: int): string {
    if i < 0 then "-" + NatToDecimal(-i) else NatToDecimal(i)
  }

  function ParseDecimal(s: string): nat
    requires forall i :: 0 <= i < |s| ==> IsDigit(s[i])
    decreases |s|
  {
    if s == [] then 0
    else ParseDecimal(s[..|s| - 1]) * 10 + DigitValue(s[|s| - 1])
  }

  function DigitValue(c: char): (d: nat)
    requires IsDigit(c)
    ensures d < 10
  {
    (c as int) - ('0' as int)
  }

  /** Reading back the digits of a natural number gives the number. */
  lemma {:induction false} DecimalRoundTrip(n: nat)
    ensures ParseDecimal(NatToDecimal(n)) == n
    decreases n
  {
    var r := NatToDecimal(n);
    if n >= 10 {
      DecimalRoundTrip(n / 10);
      assert r[..|r| - 1] == NatToDecimal(n / 10);
    }
  }

  /** Distinct natural numbers have distinct decimal renderings. */
  lemma DecimalInjective(m: nat, n: nat)
    requires NatToDecimal(m) == NatToDecimal(n)
    ensures m == n
  {
    DecimalRoundTrip(m);
    DecimalRoundTrip(n);
  }

  /** `"%0<width>d"`: the decimal digits of `n`, zero-padded on the left to `width`. */
  function ZeroPad(n: nat, width: nat): (r: string)
    ensures |r| == if |NatToDecimal(n)| < width then width else |NatToDecimal(n)|
    ensures forall i :: 0 <= i < |r| ==> IsDigit(r[i])
  {
    var d := NatToDecimal(n);
    if |d| < width then seq(width - |d|, _ => '0') + d else d
  }

  /** Python's `xs[:n]`, including a negative `n`, which counts from the end. */
  function PyTake<T>(xs: seq<T>, n: int): (r: seq<T>)
    ensures 0 <= n ==> |r| == Min(n, |xs|)
    ensures |r| <= |xs| && r == xs[..|r|]
  {
    if n >= 0 then (if n < |xs| then xs[..n] else xs)
    else if |xs| + n > 0 then xs[..|xs| + n] else []
  }

  function Min(a: int, b: int): int {
    if a < b then a else b
  }
}
