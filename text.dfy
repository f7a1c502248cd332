/**
 * The few pieces of Python's `str` behaviour the flashing tool relies on:
 * the substring test `p in s` and `s.strip()`.
 */
module Text {

  /** `p` is a prefix of `s`. */
  predicate StartsWith(s: string, p: string) {
    |p| <= |s| && s[..|p|] == p
  }

  /** Python's `p in s`: `p` occurs somewhere in `s`, tried position by position. */
  predicate Contains(s: string, p: string)
    decreases |s|
  {
    StartsWith(s, p) || (s != [] && Contains(s[1..], p))
  }

  /** `p` occurs in `s` at position `i`. */
  predicate OccursAt(s: string, p: string, i: int) {
    0 <= i && i + |p| <= |s| && s[i..i + |p|] == p
  }

  /** The position-by-position search finds `p` exactly when `p` occurs at some index. */
  lemma {:induction false} ContainsIff(s: string, p: string)
    ensures Contains(s, p) <==> exists i :: OccursAt(s, p, i)
    decreases |s|
  {
    if StartsWith(s, p) {
      assert OccursAt(s, p, 0);
    } else if s != [] {
      ContainsIff(s[1..], p);
      if Contains(s[1..], p) {
        var i :| OccursAt(s[1..], p, i);
        assert s[i + 1..i + 1 + |p|] == s[1..][i..i + |p|];
        assert OccursAt(s, p, i + 1);
      }
      forall i | OccursAt(s, p, i) ensures Contains(s[1..], p) {
        assert i != 0;
        assert s[1..][i - 1..i - 1 + |p|] == s[i..i + |p|];
        assert OccursAt(s[1..], p, i - 1);
      }
    }
  }

  /** C `isspace` in the C locale: what Python 2's int() skips around the digits of a str. */
  predicate IsCSpace(c: char) {
    c == ' ' || ('\t' <= c <= '\r')
  }

  /** Python's `str.isspace()` on one character: the characters `str.strip()` removes. */
  predicate IsSpace(c: char) {
    var n := c as int;
    (0x09 <= n <= 0x0D) || (0x1C <= n <= 0x20) || n == 0x85 || n == 0xA0 || n == 0x1680
    || (0x2000 <= n <= 0x200A) || n == 0x2028 || n == 0x2029 || n == 0x202F || n == 0x205F
    || n == 0x3000
  }

  /** The two whitespace classes the tools strip. */
  datatype Whitespace = CLocale | Unicode

  predicate IsWhite(ws: Whitespace, c: char) {
    match ws
    case CLocale => IsCSpace(c)
    case Unicode => IsSpace(c)
  }

  /** `s` with its leading characters of class `ws` removed (what they are: `TrimStartRemovesLeadingSpace`). */
  function TrimStart(s: string, ws: Whitespace): (r: string)
    ensures |r| <= |s|
    decreases |s|
  {
    if s != [] && IsWhite(ws, s[0]) then TrimStart(s[1..], ws) else s
  }

  /** `s` with its trailing characters of class `ws` removed (what they are: `TrimEndRemovesTrailingSpace`). */
  function TrimEnd(s: string, ws: Whitespace): (r: string)
    ensures |r| <= |s|
    decreases |s|
  {
    if s != [] && IsWhite(ws, s[|s| - 1]) then TrimEnd(s[..|s| - 1], ws) else s
  }

  /** `s.strip()` with the whitespace class `ws`. */
  function Strip(s: string, ws: Whitespace): string {
    TrimEnd(TrimStart(s, ws), ws)
  }

  /** Every character of `s` is whitespace of class `ws`. */
  predicate AllWhite(ws: Whitespace, s: string) {
    forall i :: 0 <= i < |s| ==> IsWhite(ws, s[i])
  }

  /** TrimStart drops exactly the leading whitespace: what is left is a suffix of `s` that is empty or starts with a non-space. */
  lemma {:induction false} TrimStartRemovesLeadingSpace(s: string, ws: Whitespace)
    ensures var r := TrimStart(s, ws);
      && s == s[..|s| - |r|] + r
      && AllWhite(ws, s[..|s| - |r|])
      && (r == [] || !IsWhite(ws, r[0]))
    decreases |s|
  {
    if s != [] && IsWhite(ws, s[0]) {
      var u := s[1..];
      var r := TrimStart(u, ws);
      assert TrimStart(s, ws) == r;
      TrimStartRemovesLeadingSpace(u, ws);
      var head := s[..|s| - |r|];
      assert head == [s[0]] + u[..|u| - |r|];
      assert s == [s[0]] + u;
      assert s == head + r;
      forall m | 0 <= m < |head| ensures IsWhite(ws, head[m]) {
        if m > 0 {
          assert head[m] == u[..|u| - |r|][m - 1];
        }
      }
    } else {
      assert s[..0] == [];
    }
  }

  /** TrimEnd drops exactly the trailing whitespace: what is left is a prefix of `s` that is empty or ends with a non-space. */
  lemma {:induction false} TrimEndRemovesTrailingSpace(s: string, ws: Whitespace)
    ensures var r := TrimEnd(s, ws);
      && s == r + s[|r|..]
      && AllWhite(ws, s[|r|..])
      && (r == [] || !IsWhite(ws, r[|r| - 1]))
    decreases |s|
  {
    if s != [] && IsWhite(ws, s[|s| - 1]) {
      var t := s[..|s| - 1];
      var r := TrimEnd(t, ws);
      assert TrimEnd(s, ws) == r;
      TrimEndRemovesTrailingSpace(t, ws);
      var tail := s[|r|..];
      assert tail == t[|r|..] + [s[|s| - 1]];
      assert s == t + [s[|s| - 1]] == r + t[|r|..] + [s[|s| - 1]];
      forall m | 0 <= m < |tail| ensures IsWhite(ws, tail[m]) {
        if m < |tail| - 1 {
          assert tail[m] == t[|r|..][m];
        }
      }
    } else {
      assert s[|s|..] == [];
    }
  }

  /** A non-space character of `s` survives TrimStart, shifted by the number of characters removed. */
  lemma LocateInTrimStart(s: string, i: nat, ws: Whitespace)
    requires i < |s| && !IsWhite(ws, s[i])
    ensures var r := TrimStart(s, ws);
      |s| - |r| <= i && r[i - (|s| - |r|)] == s[i]
  {
    var r := TrimStart(s, ws);
    TrimStartRemovesLeadingSpace(s, ws);
    forall m | 0 <= m < |s| - |r| ensures IsWhite(ws, s[m]) {
      assert s[m] == s[..|s| - |r|][m];
    }
  }

  /** A non-space character of `s` survives TrimEnd at the same index. */
  lemma LocateInTrimEnd(s: string, i: nat, ws: Whitespace)
    requires i < |s| && !IsWhite(ws, s[i])
    ensures var r := TrimEnd(s, ws);
      i < |r| && r[i] == s[i]
  {
    var r := TrimEnd(s, ws);
    TrimEndRemovesTrailingSpace(s, ws);
    forall m | |r| <= m < |s| ensures IsWhite(ws, s[m]) {
      assert s[m] == s[|r|..][m - |r|];
    }
  }

  /** Leading whitespace in front of a string that starts with a non-space is exactly what TrimStart removes. */
  lemma {:induction false} TrimStartOfPadded(pad: string, s: string, ws: Whitespace)
    requires AllWhite(ws, pad) && (s == [] || !IsWhite(ws, s[0]))
    ensures TrimStart(pad + s, ws) == s
    decreases |pad|
  {
    if pad != [] {
      assert (pad + s)[1..] == pad[1..] + s;
      TrimStartOfPadded(pad[1..], s, ws);
    }
  }

  /** Trailing whitespace behind a string that ends with a non-space is exactly what TrimEnd removes. */
  lemma {:induction false} TrimEndOfPadded(s: string, pad: string, ws: Whitespace)
    requires AllWhite(ws, pad) && (s == [] || !IsWhite(ws, s[|s| - 1]))
    ensures TrimEnd(s + pad, ws) == s
    decreases |pad|
  {
    if pad != [] {
      assert (s + pad)[..|s + pad| - 1] == s + pad[..|pad| - 1];
      TrimEndOfPadded(s, pad[..|pad| - 1], ws);
    } else {
      assert s + pad == s;
    }
  }

  /** Removing leading whitespace never changes whether `p` occurs, when `p` starts with a non-space. */
  lemma {:induction false} TrimStartKeepsOccurrence(s: string, p: string, ws: Whitespace)
    requires p != [] && !IsWhite(ws, p[0])
    ensures Contains(TrimStart(s, ws), p) <==> Contains(s, p)
    decreases |s|
  {
    if s != [] && IsWhite(ws, s[0]) {
      TrimStartKeepsOccurrence(s[1..], p, ws);
      assert !StartsWith(s, p);
    }
  }

  /** An occurrence that ends within the first `n` characters is an occurrence in that prefix. */
  lemma OccursInPrefix(s: string, p: string, i: int, n: int)
    requires 0 <= i && i + |p| <= n <= |s|
    ensures OccursAt(s[..n], p, i) <==> OccursAt(s, p, i)
  {
    assert s[..n][i..i + |p|] == s[i..i + |p|];
  }

  /** Removing trailing whitespace never changes whether `p` occurs, when `p` ends with a non-space. */
  lemma {:induction false} TrimEndKeepsOccurrence(s: string, p: string, ws: Whitespace)
    requires p != [] && !IsWhite(ws, p[|p| - 1])
    ensures Contains(TrimEnd(s, ws), p) <==> Contains(s, p)
    decreases |s|
  {
    if s != [] && IsWhite(ws, s[|s| - 1]) {
      var t := s[..|s| - 1];
      TrimEndKeepsOccurrence(t, p, ws);
      ContainsIff(s, p);
      ContainsIff(t, p);
      if Contains(s, p) {
        var i :| OccursAt(s, p, i);
        assert s[i + |p| - 1] == s[i..i + |p|][|p| - 1] == p[|p| - 1];
        assert i + |p| - 1 != |s| - 1;
        assert i + |p| <= |t|;
        OccursInPrefix(s, p, i, |s| - 1);
      }
      if Contains(t, p) {
        var i :| OccursAt(t, p, i);
        OccursInPrefix(s, p, i, |s| - 1);
      }
    }
  }

  /** `p in s.strip()` agrees with `p in s` whenever `p` begins and ends with non-whitespace. */
  lemma StripKeepsOccurrence(s: string, p: string, ws: Whitespace)
    requires p != [] && !IsWhite(ws, p[0]) && !IsWhite(ws, p[|p| - 1])
    ensures Contains(Strip(s, ws), p) <==> Contains(s, p)
  {
    TrimEndKeepsOccurrence(TrimStart(s, ws), p, ws);
    TrimStartKeepsOccurrence(s, p, ws);
  }
}
