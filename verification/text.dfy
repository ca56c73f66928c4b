/** The handful of Python `str` operations the generator and the client use,
    as pure functions over `seq<char>`. Character classes are the ASCII ranges
    the source's regular expressions spell out (`[0-9a-zA-Z_]`); case mapping
    is the ASCII part of Python's `lower()` / `upper()`. */
module Text {

  predicate IsDigit(c: char) { '0' <= c <= '9' }

  predicate IsUpper(c: char) { 'A' <= c <= 'Z' }

  predicate IsLower(c: char) { 'a' <= c <= 'z' }

  /** `[0-9a-zA-Z]` */
  predicate IsAlnum(c: char) { IsDigit(c) || IsUpper(c) || IsLower(c) }

  /** `[0-9a-zA-Z_]`, the characters of a Python identifier the sanitiser keeps. */
  predicate IsIdentChar(c: char) { IsAlnum(c) || c == '_' }

  predicate AllIdentChars(s: string) {
    forall i :: 0 <= i < |s| ==> IsIdentChar(s[i])
  }

  function LowerChar(c: char): (r: char)
    ensures IsUpper(c) ==> IsLower(r)
    ensures !IsUpper(c) ==> r == c
  {
    if IsUpper(c) then (c as int + 32) as char else c
  }

  function UpperChar(c: char): (r: char)
    ensures IsLower(c) ==> IsUpper(r)
    ensures !IsLower(c) ==> r == c
  {
    if IsLower(c) then (c as int - 32) as char else c
  }

  function Lower(s: string): (r: string)
    ensures |r| == |s|
    ensures forall i :: 0 <= i < |s| ==> r[i] == LowerChar(s[i])
  {
    if s == [] then [] else [LowerChar(s[0])] + Lower(s[1..])
  }

  function Upper(s: string): (r: string)
    ensures |r| == |s|
    ensures forall i :: 0 <= i < |s| ==> r[i] == UpperChar(s[i])
  {
    if s == [] then [] else [UpperChar(s[0])] + Upper(s[1..])
  }

  /** Python `s.startswith(p)`. */
  predicate StartsWith(s: string, p: string) {
    |p| <= |s| && s[..|p|] == p
  }

  /** Python `sub in s` on strings. */
  predicate Contains(s: string, sub: string)
    decreases |s|
  {
    StartsWith(s, sub) || (|s| > 0 && Contains(s[1..], sub))
  }

  /** Python `s.replace(pat, rep)`: scan from the left, replace every
      non-overlapping occurrence. Only used with a non-empty `pat`. */
  function Replace(s: string, pat: string, rep: string): string
    requires |pat| > 0
    decreases |s|
  {
    if |s| < |pat| then s
    else if s[..|pat|] == pat then rep + Replace(s[|pat|..], pat, rep)
    else [s[0]] + Replace(s[1..], pat, rep)
  }

  /** Replacing a string by itself changes nothing. */
  lemma {:induction false} ReplaceIdentity(s: string, x: string)
    requires |x| > 0
    ensures Replace(s, x, x) == s
    decreases |s|
  {
    if |s| < |x| {
    } else if s[..|x|] == x {
      ReplaceIdentity(s[|x|..], x);
      assert s == s[..|x|] + s[|x|..];
    } else {
      ReplaceIdentity(s[1..], x);
      assert s == [s[0]] + s[1..];
    }
  }

  /** A string that does not contain the pattern is left alone. */
  lemma {:induction false} ReplaceAbsent(s: string, pat: string, rep: string)
    requires |pat| > 0
    ensures !Contains(s, pat) ==> Replace(s, pat, rep) == s
    decreases |s|
  {
    if |s| >= |pat| && s[..|pat|] != pat {
      ReplaceAbsent(s[1..], pat, rep);
      assert s == [s[0]] + s[1..];
    }
  }

  /** A replacement as long as the pattern keeps the length. */
  lemma {:induction false} ReplaceSameLength(s: string, pat: string, rep: string)
    requires |pat| > 0 && |rep| == |pat|
    ensures |Replace(s, pat, rep)| == |s|
    decreases |s|
  {
    if |s| < |pat| {
    } else if s[..|pat|] == pat {
      ReplaceSameLength(s[|pat|..], pat, rep);
    } else {
      ReplaceSameLength(s[1..], pat, rep);
    }
  }

  /** Replace with a one-character pattern works character by character. */
  lemma ReplaceCharCons(c: char, rest: string, x: char, y: string)
    ensures Replace([c] + rest, [x], y)
         == (if c == x then y else [c]) + Replace(rest, [x], y)
  {
    var s := [c] + rest;
    assert s[..1] == [c];
    assert s[1..] == rest;
  }

  /** Python `s.split(sep)` for a one-character separator: never empty,
      empty fields kept. */
  function Split(s: string, sep: char): (parts: seq<string>)
    ensures |parts| > 0
    ensures forall k :: 0 <= k < |parts| ==> sep !in parts[k]
    decreases |s|
  {
    if s == [] then [[]]
    else
      var rest := Split(s[1..], sep);
      if s[0] == sep then [[]] + rest
      else [[s[0]] + rest[0]] + rest[1..]
  }

  /** Python `sep.join(parts)`. */
  function Join(parts: seq<string>, sep: string): string
    decreases |parts|
  {
    if parts == [] then []
    else if |parts| == 1 then parts[0]
    else parts[0] + sep + Join(parts[1..], sep)
  }

  /** Joining what was split gives the string back. */
  lemma {:induction false} JoinSplit(s: string, sep: char)
    ensures Join(Split(s, sep), [sep]) == s
    decreases |s|
  {
    if s == [] {
    } else {
      var rest := Split(s[1..], sep);
      JoinSplit(s[1..], sep);
      if s[0] == sep {
        assert Split(s, sep) == [[]] + rest;
        assert ([[]] + rest)[1..] == rest;
        assert s == [s[0]] + s[1..];
      } else {
        var parts := [[s[0]] + rest[0]] + rest[1..];
        assert Split(s, sep) == parts;
        if |rest| == 1 {
          assert s == [s[0]] + s[1..];
        } else {
          assert parts[1..] == rest[1..];
          assert Join(rest, [sep]) == rest[0] + [sep] + Join(rest[1..], [sep]);
          assert s == [s[0]] + s[1..];
        }
      }
    }
  }

  /** Splitting a join of separator-free fields gives the fields back. */
  lemma {:induction false} SplitJoin(parts: seq<string>, sep: char)
    requires |parts| > 0
    requires forall k :: 0 <= k < |parts| ==> sep !in parts[k]
    ensures Split(Join(parts, [sep]), sep) == parts
    decreases |parts|, |parts[0]|
  {
    if |parts| == 1 {
      SplitFree(parts[0], sep);
    } else if parts[0] == [] {
      var tail := Join(parts[1..], [sep]);
      SplitJoin(parts[1..], sep);
      assert Join(parts, [sep]) == [sep] + tail;
      assert ([sep] + tail)[1..] == tail;
      assert parts == [[]] + parts[1..];
    } else {
      var p0 := parts[0];
      var shorter := [p0[1..]] + parts[1..];
      assert forall k :: 0 <= k < |shorter| ==> sep !in shorter[k] by {
        forall k | 0 <= k < |shorter| ensures sep !in shorter[k] {
          if k == 0 {
            assert forall i :: 0 <= i < |p0[1..]| ==> p0[1..][i] == p0[i + 1];
          } else {
            assert shorter[k] == parts[k];
          }
        }
      }
      SplitJoin(shorter, sep);
      var tail := Join(parts[1..], [sep]);
      var whole := Join(parts, [sep]);
      assert whole == p0 + [sep] + tail;
      assert Join(shorter, [sep]) == p0[1..] + [sep] + tail;
      assert whole[0] == p0[0];
      assert whole[1..] == p0[1..] + [sep] + tail;
      assert p0[0] != sep by { assert p0[0] == parts[0][0]; }
      assert p0 == [p0[0]] + p0[1..];
    }
  }

  /** A string without the separator splits into itself. */
  lemma {:induction false} SplitFree(s: string, sep: char)
    requires sep !in s
    ensures Split(s, sep) == [s]
    decreases |s|
  {
    if s != [] {
      assert sep !in s[1..] by {
        assert forall i :: 0 <= i < |s[1..]| ==> s[1..][i] == s[i + 1];
      }
      SplitFree(s[1..], sep);
      assert s == [s[0]] + s[1..];
    }
  }

  /** Python `s.rstrip(c)` for a single character `c`. */
  function RStrip(s: string, c: char): (r: string)
    ensures StartsWith(s, r)
    ensures r == [] || r[|r| - 1] != c
    ensures forall i :: |r| <= i < |s| ==> s[i] == c
    decreases |s|
  {
    if s != [] && s[|s| - 1] == c then RStrip(s[..|s| - 1], c) else s
  }

  /** Python `s.lstrip(c)` for a single character `c`. */
  function LStrip(s: string, c: char): (r: string)
    ensures |r| <= |s| && r == s[|s| - |r|..]
    ensures r == [] || r[0] != c
    ensures forall i :: 0 <= i < |s| - |r| ==> s[i] == c
    decreases |s|
  {
    if s != [] && s[0] == c then
      var r := LStrip(s[1..], c);
      assert s[1..][|s| - 1 - |r|..] == s[|s| - |r|..];
      assert forall i :: 1 <= i < |s| - |r| ==> s[i] == s[1..][i - 1];
      r
    else s
  }

  /** Python `s.strip(c)`. */
  function Strip(s: string, c: char): string {
    RStrip(LStrip(s, c), c)
  }

  function DigitChar(d: nat): (c: char)
    requires d < 10
    ensures IsDigit(c)
  {
    ('0' as int + d) as char
  }

  /** Python `str(n)` for a non-negative int. */
  function NatToString(n: nat): (r: string)
    ensures |r| > 0
    ensures forall i :: 0 <= i < |r| ==> IsDigit(r[i])
  {
    if n < 10 then [DigitChar(n)] else NatToString(n / 10) + [DigitChar(n % 10)]
  }

  /** Python `str(i)` for any int. */
  function IntToString(i: int): (r: string)
    ensures |r| > 0
    ensures i < 0 <==> r[0] == '-'
  {
    if i < 0 then "-" + NatToString(-i) else NatToString(i)
  }

  /** The number a string of decimal digits denotes (`int(s)`). */
  function DigitsValue(s: string): nat
    requires forall i :: 0 <= i < |s| ==> IsDigit(s[i])
  {
    if s == [] then 0
    else
      assert IsDigit(s[|s| - 1]);
      10 * DigitsValue(s[..|s| - 1]) + (s[|s| - 1] as int - '0' as int)
  }

  /** `int(str(n)) == n`, and only zero is written with a leading `0`. */
  lemma {:induction false} NatToStringValue(n: nat)
    ensures DigitsValue(NatToString(n)) == n
    ensures NatToString(n)[0] == '0' ==> n == 0
  {
    if n >= 10 {
      var r := NatToString(n);
      NatToStringValue(n / 10);
      assert r[..|r| - 1] == NatToString(n / 10);
      assert r[0] == NatToString(n / 10)[0];
    }
  }

  /** `int(str(i)) == i` for every int: a `-` sign and the digits of `-i`
      for a negative `i`, the digits of `i` otherwise. */
  lemma IntToStringValue(i: int)
    ensures var r := IntToString(i);
      && (i < 0 ==> (forall k :: 1 <= k < |r| ==> IsDigit(r[k])) && DigitsValue(r[1..]) == -i)
      && (i >= 0 ==> (forall k :: 0 <= k < |r| ==> IsDigit(r[k])) && DigitsValue(r) == i)
  {
    if i < 0 {
      NatToStringValue(-i);
      assert IntToString(i)[1..] == NatToString(-i);
    } else {
      NatToStringValue(i);
    }
  }

  function Pow10(n: nat): (r: nat)
    ensures r >= 1
  {
    if n == 0 then 1 else 10 * Pow10(n - 1)
  }

  /** A number with at most `m` decimal digits is below `10^m`. */
  lemma {:induction false} NatToStringLength(n: nat, m: nat)
    ensures |NatToString(n)| <= m ==> n < Pow10(m)
    decreases m
  {
    if m > 0 && n >= 10 {
      NatToStringLength(n / 10, m - 1);
    }
  }
}
