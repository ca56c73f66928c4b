/** Identifier handling of the generator (client_generator.py): `snake_case`,
    `sanitize_param_name`, `generate_function_name`, and the per-function
    collision resolution `get_unique_name`. */
module Naming {
  import opened Text

  // ---------------------------------------------------------------------
  // snake_case: re.sub(r'[^0-9a-zA-Z]+', '_', text).strip('_').lower()
  // ---------------------------------------------------------------------

  /** Length of the leading run of characters outside `[0-9a-zA-Z]`. */
  function SkipCount(s: string): (n: nat)
    ensures n <= |s|
    ensures n < |s| ==> IsAlnum(s[n])
  {
    if s != [] && !IsAlnum(s[0]) then 1 + SkipCount(s[1..]) else 0
  }

  /** Drops the leading run of characters outside `[0-9a-zA-Z]`. */
  function SkipNonAlnum(s: string): (r: string)
    ensures |r| <= |s| && r == s[|s| - |r|..]
    ensures r == [] || IsAlnum(r[0])
  {
    s[SkipCount(s)..]
  }

  /** Every maximal run of characters outside `[0-9a-zA-Z]` becomes one `_`. */
  function CollapseRuns(s: string): string
    decreases |s|
  {
    if s == [] then []
    else if IsAlnum(s[0]) then [s[0]] + CollapseRuns(s[1..])
    else "_" + CollapseRuns(SkipNonAlnum(s[1..]))
  }

  /** Only alphanumerics and single underscores. */
  predicate AlnumOrUnderscore(s: string) {
    forall i :: 0 <= i < |s| ==> IsAlnum(s[i]) || s[i] == '_'
  }

  predicate NoDoubleUnderscore(s: string) {
    forall i :: 0 <= i < |s| - 1 ==> !(s[i] == '_' && s[i + 1] == '_')
  }

  /** The alphanumeric characters of `s`, in order. */
  function Alnums(s: string): (r: string)
    ensures |r| <= |s|
  {
    if s == [] then []
    else if IsAlnum(s[0]) then [s[0]] + Alnums(s[1..])
    else Alnums(s[1..])
  }

  /** The shape of a snake_case name: `[0-9a-z_]`, no `__`, no `_` at either end. */
  predicate IsSnake(s: string) {
    && (forall i :: 0 <= i < |s| ==> IsDigit(s[i]) || IsLower(s[i]) || s[i] == '_')
    && NoDoubleUnderscore(s)
    && (s == [] || (s[0] != '_' && s[|s| - 1] != '_'))
  }

  function SnakeCase(text: string): string {
    Lower(Strip(CollapseRuns(text), '_'))
  }

  lemma {:induction false} CollapseRunsShape(s: string)
    ensures AlnumOrUnderscore(CollapseRuns(s))
    ensures NoDoubleUnderscore(CollapseRuns(s))
    ensures CollapseRuns(s) != [] && CollapseRuns(s)[0] == '_' ==> s != [] && !IsAlnum(s[0])
    ensures Alnums(CollapseRuns(s)) == Alnums(s)
    decreases |s|
  {
    if s == [] {
    } else if IsAlnum(s[0]) {
      CollapseRunsShape(s[1..]);
      var t := CollapseRuns(s[1..]);
      assert CollapseRuns(s) == [s[0]] + t;
      assert ([s[0]] + t)[1..] == t;
    } else {
      var u := SkipNonAlnum(s[1..]);
      CollapseRunsShape(u);
      AlnumsSkip(s[1..]);
      var t := CollapseRuns(u);
      assert CollapseRuns(s) == "_" + t;
      assert ("_" + t)[1..] == t;
      assert t != [] ==> t[0] != '_';
    }
  }

  /** Skipping non-alphanumerics loses no alphanumeric. */
  lemma {:induction false} AlnumsSkip(s: string)
    ensures Alnums(SkipNonAlnum(s)) == Alnums(s)
    decreases |s|
  {
    if s != [] && !IsAlnum(s[0]) {
      AlnumsSkip(s[1..]);
    }
  }

  lemma {:induction false} AlnumsConcat(x: string, y: string)
    ensures Alnums(x + y) == Alnums(x) + Alnums(y)
    decreases |x|
  {
    if x != [] {
      AlnumsConcat(x[1..], y);
      var xy := x + y;
      assert xy != [] && xy[0] == x[0];
      assert xy[1..] == x[1..] + y;
      if IsAlnum(x[0]) {
        assert Alnums(xy) == [x[0]] + (Alnums(x[1..]) + Alnums(y));
        assert Alnums(x) == [x[0]] + Alnums(x[1..]);
      } else {
        assert Alnums(xy) == Alnums(x[1..]) + Alnums(y);
      }
    } else {
      assert x + y == y;
    }
  }

  lemma {:induction false} AlnumsLower(s: string)
    ensures Alnums(Lower(s)) == Lower(Alnums(s))
    decreases |s|
  {
    if s != [] {
      AlnumsLower(s[1..]);
      assert Lower(s) == [LowerChar(s[0])] + Lower(s[1..]);
      assert Lower(s)[1..] == Lower(s[1..]);
    }
  }

  /** A slice of a string keeps its character-class facts. */
  lemma SliceShape(c: string, a: nat, b: nat)
    requires a <= b <= |c|
    requires AlnumOrUnderscore(c) && NoDoubleUnderscore(c)
    ensures AlnumOrUnderscore(c[a..b]) && NoDoubleUnderscore(c[a..b])
  {
    var st := c[a..b];
    assert forall i :: 0 <= i < |st| ==> st[i] == c[a + i];
  }

  lemma SliceOfSuffix(c: string, a: nat, n: nat)
    requires a + n <= |c|
    ensures c[a..][..n] == c[a..a + n]
  {
  }

  lemma StripShape(c: string)
    requires AlnumOrUnderscore(c) && NoDoubleUnderscore(c)
    ensures var st := Strip(c, '_');
      && AlnumOrUnderscore(st) && NoDoubleUnderscore(st)
      && (st == [] || (st[0] != '_' && st[|st| - 1] != '_'))
  {
    var st := Strip(c, '_');
    var a := StripIsSlice(c);
    assert st == c[a..a + |st|];
    SliceShape(c, a, a + |st|);
    StripEnds(c);
  }

  /** `s.strip('_')` is a slice of `s`. */
  lemma StripIsSlice(c: string) returns (a: nat)
    ensures a + |Strip(c, '_')| <= |c| && Strip(c, '_') == c[a..a + |Strip(c, '_')|]
  {
    var l := LStrip(c, '_');
    var st := RStrip(l, '_');
    a := |c| - |l|;
    assert l == c[a..];
    assert st == l[..|st|];
    SliceOfSuffix(c, a, |st|);
  }

  /** ... with no `_` at either end. */
  lemma StripEnds(c: string)
    ensures var st := Strip(c, '_'); st == [] || (st[0] != '_' && st[|st| - 1] != '_')
  {
    var l := LStrip(c, '_');
    var st := RStrip(l, '_');
    assert Strip(c, '_') == st;
    if st != [] {
      assert st[0] == l[0];
    }
  }

  lemma LStripAlnums(c: string)
    ensures Alnums(LStrip(c, '_')) == Alnums(c)
  {
    var r := LStrip(c, '_');
    DropUnderscoresAlnums(c, |c| - |r|);
  }

  lemma {:induction false} DropUnderscoresAlnums(c: string, k: nat)
    requires k <= |c|
    requires forall i :: 0 <= i < k ==> c[i] == '_'
    ensures Alnums(c[k..]) == Alnums(c)
    decreases k
  {
    if k > 0 {
      assert c[1..][k - 1..] == c[k..];
      assert Alnums(c) == Alnums(c[1..]);
      DropUnderscoresAlnums(c[1..], k - 1);
    }
  }

  lemma {:induction false} RStripAlnums(c: string)
    ensures Alnums(RStrip(c, '_')) == Alnums(c)
    decreases |c|
  {
    if c != [] && c[|c| - 1] == '_' {
      var front := c[..|c| - 1];
      RStripAlnums(front);
      assert c == front + ['_'];
      AlnumsConcat(front, ['_']);
      assert Alnums(['_']) == [];
    }
  }

  lemma StripAlnums(c: string)
    ensures Alnums(Strip(c, '_')) == Alnums(c)
  {
    LStripAlnums(c);
    RStripAlnums(LStrip(c, '_'));
  }

  lemma LowerShape(st: string)
    requires AlnumOrUnderscore(st) && NoDoubleUnderscore(st)
    requires st == [] || (st[0] != '_' && st[|st| - 1] != '_')
    ensures IsSnake(Lower(st))
  {
    var l := Lower(st);
    forall i | 0 <= i < |l| ensures IsDigit(l[i]) || IsLower(l[i]) || l[i] == '_' {
      assert l[i] == LowerChar(st[i]);
    }
    forall i | 0 <= i < |l| - 1 ensures !(l[i] == '_' && l[i + 1] == '_') {
      assert l[i] == LowerChar(st[i]) && l[i + 1] == LowerChar(st[i + 1]);
    }
    if l != [] {
      assert l[0] == LowerChar(st[0]) && l[|l| - 1] == LowerChar(st[|st| - 1]);
    }
  }

  /** What `snake_case` produces: `[0-9a-z_]` only, no `__`, no `_` at either
      end, and the alphanumerics of the input lower-cased, in order. */
  lemma SnakeCaseShape(text: string)
    ensures IsSnake(SnakeCase(text))
    ensures Alnums(SnakeCase(text)) == Lower(Alnums(text))
  {
    var c := CollapseRuns(text);
    CollapseRunsShape(text);
    var st := Strip(c, '_');
    StripShape(c);
    StripAlnums(c);
    LowerShape(st);
    AlnumsLower(st);
  }

  /** A name already in snake_case shape is left alone by `CollapseRuns`. */
  lemma {:induction false} CollapseRunsFixed(s: string)
    requires AlnumOrUnderscore(s) && NoDoubleUnderscore(s)
    ensures CollapseRuns(s) == s
    decreases |s|
  {
    if s != [] {
      var t := s[1..];
      assert AlnumOrUnderscore(t) && NoDoubleUnderscore(t) by {
        assert forall i :: 0 <= i < |t| ==> t[i] == s[i + 1];
      }
      if IsAlnum(s[0]) {
        CollapseRunsFixed(t);
      } else {
        assert t == [] || IsAlnum(t[0]);
        assert SkipNonAlnum(t) == t;
        CollapseRunsFixed(t);
      }
      assert s == [s[0]] + t;
    }
  }

  lemma {:induction false} LowerFixed(s: string)
    requires forall i :: 0 <= i < |s| ==> !IsUpper(s[i])
    ensures Lower(s) == s
  {
  }

  /** `snake_case` is idempotent. */
  lemma SnakeCaseIdempotent(text: string)
    ensures SnakeCase(SnakeCase(text)) == SnakeCase(text)
  {
    var s := SnakeCase(text);
    SnakeCaseShape(text);
    CollapseRunsFixed(s);
    assert LStrip(s, '_') == s;
    assert RStrip(s, '_') == s;
    LowerFixed(s);
  }

  // ---------------------------------------------------------------------
  // sanitize_param_name
  // ---------------------------------------------------------------------

  /** The reserved words the sanitiser checks (33 of them; not every Python
      keyword is here: `async`, `await` are missing). */
  const Keywords: seq<string> := KeywordsA + KeywordsB + KeywordsC + KeywordsD

  const KeywordsA: seq<string> := ["class", "def", "return", "lambda", "for", "while", "break", "continue"]
  const KeywordsB: seq<string> := ["pass", "import", "global", "with", "yield", "except", "raise", "from"]
  const KeywordsC: seq<string> := ["as", "if", "elif", "else", "try", "finally", "nonlocal", "assert"]
  const KeywordsD: seq<string> := ["del", "in", "and", "or", "not", "is", "None", "True", "False"]

  /** Python `s in python_keywords`. */
  predicate IsKeyword(s: string) {
    InList(s, Keywords)
  }

  predicate InList(s: string, l: seq<string>) {
    l != [] && (l[0] == s || InList(s, l[1..]))
  }

  lemma {:induction false} InListAt(s: string, l: seq<string>, i: nat)
    requires i < |l| && l[i] == s
    ensures InList(s, l)
    decreases i
  {
    if i > 0 {
      InListAt(s, l[1..], i - 1);
    }
  }

  /** A reserved word is an ASCII letter followed by lower-case letters,
      eight characters at most. */
  predicate IsWord(w: string) {
    && 0 < |w| <= 8
    && (IsUpper(w[0]) || IsLower(w[0]))
    && forall i :: 1 <= i < |w| ==> IsLower(w[i])
  }

  predicate AllWords(l: seq<string>) {
    forall i :: 0 <= i < |l| ==> IsWord(l[i])
  }

  lemma AllWordsConcat(a: seq<string>, b: seq<string>)
    requires AllWords(a) && AllWords(b)
    ensures AllWords(a + b)
  {
    forall i | 0 <= i < |a + b| ensures IsWord((a + b)[i]) {
      if i < |a| { assert (a + b)[i] == a[i]; } else { assert (a + b)[i] == b[i - |a|]; }
    }
  }

  lemma KeywordsShape()
    ensures |Keywords| == 33
    ensures forall i :: 0 <= i < |Keywords| ==> IsWord(Keywords[i])
  {
    assert AllWords(KeywordsA);
    assert AllWords(KeywordsB);
    assert AllWords(KeywordsC);
    assert AllWords(KeywordsD);
    AllWordsConcat(KeywordsA, KeywordsB);
    AllWordsConcat(KeywordsA + KeywordsB, KeywordsC);
    AllWordsConcat(KeywordsA + KeywordsB + KeywordsC, KeywordsD);
  }

  lemma {:induction false} InListWord(s: string, l: seq<string>)
    requires forall i :: 0 <= i < |l| ==> IsWord(l[i])
    ensures InList(s, l) ==> IsWord(s)
  {
    if l != [] && l[0] != s {
      InListWord(s, l[1..]);
    }
  }

  /** Every reserved word is a non-empty run of letters. */
  lemma KeywordIsWord(s: string)
    ensures IsKeyword(s) ==> IsWord(s)
  {
    KeywordsShape();
    InListWord(s, Keywords);
  }

  /** So a string with a character other than a letter, or with a capital
      after its first character, is no reserved word. */
  lemma NotKeyword(s: string, i: nat)
    requires i < |s| && !IsLower(s[i]) && (i > 0 || !IsUpper(s[i]))
    ensures !IsKeyword(s)
  {
    KeywordIsWord(s);
  }

  /** A string longer than eight characters is no reserved word. */
  lemma LongNotKeyword(s: string)
    requires |s| > 8
    ensures !IsKeyword(s)
  {
    KeywordIsWord(s);
  }

  /** Step 1: `replace('[', '_').replace(']', '')`. */
  function FixBrackets(s: string): (r: string)
    ensures '[' !in r && ']' !in r
  {
    if s == [] then []
    else if s[0] == '[' then "_" + FixBrackets(s[1..])
    else if s[0] == ']' then FixBrackets(s[1..])
    else [s[0]] + FixBrackets(s[1..])
  }

  /** The character-wise definition is the source's two chained replaces. */
  lemma {:induction false} FixBracketsIsReplace(s: string)
    ensures FixBrackets(s) == Replace(Replace(s, "[", "_"), "]", "")
    decreases |s|
  {
    if s != [] {
      FixBracketsIsReplace(s[1..]);
      ReplaceCharCons(s[0], s[1..], '[', "_");
      assert s == [s[0]] + s[1..];
      var once := Replace(s[1..], "[", "_");
      if s[0] == '[' {
        assert Replace(s, "[", "_") == "_" + once;
        ReplaceCharCons('_', once, ']', "");
      } else {
        assert Replace(s, "[", "_") == [s[0]] + once;
        ReplaceCharCons(s[0], once, ']', "");
      }
    }
  }

  /** Step 2: a leading ASCII digit gets the prefix `p_`. */
  function PrefixDigit(s: string): string {
    if |s| > 0 && IsDigit(s[0]) then "p_" + s else s
  }

  /** Step 3: `re.sub(r'[^0-9a-zA-Z_]', '_', s)`. */
  function MapNonIdent(s: string): (r: string)
    ensures |r| == |s|
    ensures forall i :: 0 <= i < |s| ==> r[i] == (if IsIdentChar(s[i]) then s[i] else '_')
  {
    if s == [] then [] else [if IsIdentChar(s[0]) then s[0] else '_'] + MapNonIdent(s[1..])
  }

  /** What every sanitised name satisfies. The empty string passes: a name
      made only of `]` sanitises to "". */
  predicate IsSanitized(s: string) {
    AllIdentChars(s) && (s == [] || !IsDigit(s[0])) && !IsKeyword(s)
  }

  /** Steps 1-3 of the sanitiser, before the reserved-word check. */
  function Stem(name: string): string {
    MapNonIdent(PrefixDigit(FixBrackets(name)))
  }

  function SanitizeParamName(name: string): (r: string)
    ensures IsSanitized(r)
    ensures '[' !in r && ']' !in r
    ensures var f := FixBrackets(name); |f| > 0 && IsDigit(f[0]) ==> StartsWith(r, "p_")
    ensures IsSanitized(name) ==> r == name
    ensures IsKeyword(name) ==> r == name + "_param"
  {
    var s := Stem(name);
    SanitizeSteps(name);
    if IsKeyword(s) then
      KeywordSuffixed(s);
      s + "_param"
    else
      NoBracketsInIdent(s);
      s
  }

  lemma NoBracketsInIdent(s: string)
    requires AllIdentChars(s)
    ensures '[' !in s && ']' !in s
  {
  }

  lemma ParamSuffixIdent(p: string)
    requires p == "_param"
    ensures AllIdentChars(p)
  {
    forall i | 0 <= i < |p| ensures IsIdentChar(p[i]) {
      assert p[i] in "_param";
    }
  }

  /** Appending `_param` to an identifier gives a sanitised name that keeps
      the identifier's prefix. */
  lemma KeywordSuffixed(s: string)
    requires AllIdentChars(s) && (s == [] || !IsDigit(s[0]))
    ensures IsSanitized(s + "_param") && '[' !in s + "_param" && ']' !in s + "_param"
    ensures StartsWith(s, "p_") ==> StartsWith(s + "_param", "p_")
  {
    var p := "_param";
    var r := s + p;
    assert r[|s|] == '_';
    NotKeyword(r, |s|);
    assert r[..|s|] == s;
    ParamSuffixIdent(p);
    forall i | 0 <= i < |r| ensures IsIdentChar(r[i]) {
      if i < |s| { assert r[i] == s[i]; } else { assert r[i] == p[i - |s|]; }
    }
    if s != [] { assert r[0] == s[0]; }
    NoBracketsInIdent(r);
  }

  lemma {:induction false} FixBracketsFixed(s: string)
    requires AllIdentChars(s)
    ensures FixBrackets(s) == s
    decreases |s|
  {
    if s != [] {
      FixBracketsFixed(s[1..]);
      assert s == [s[0]] + s[1..];
    }
  }

  /** A string without brackets is left alone by the bracket step. */
  lemma {:induction false} FixBracketsPlain(s: string)
    requires '[' !in s && ']' !in s
    ensures FixBrackets(s) == s
    decreases |s|
  {
    if s != [] {
      assert s[0] in s;
      assert forall c :: c in s[1..] ==> c in s;
      FixBracketsPlain(s[1..]);
      assert s == [s[0]] + s[1..];
    }
  }

  /** The first three steps of the sanitiser: identifier characters only,
      no leading digit, and nothing changes for a name already of that shape. */
  lemma SanitizeSteps(name: string)
    ensures var s := MapNonIdent(PrefixDigit(FixBrackets(name)));
      && AllIdentChars(s)
      && (s == [] || !IsDigit(s[0]))
      && (var f := FixBrackets(name); |f| > 0 && IsDigit(f[0]) ==> StartsWith(s, "p_"))
      && (AllIdentChars(name) && (name == [] || !IsDigit(name[0])) ==> s == name)
      && (IsKeyword(name) ==> s == name)
  {
    var f := FixBrackets(name);
    var s := MapNonIdent(PrefixDigit(f));
    if |f| > 0 && IsDigit(f[0]) {
      assert s[0] == 'p' && s[1] == '_';
      assert s[..2] == "p_";
    } else if |f| > 0 {
      assert s[0] == if IsIdentChar(f[0]) then f[0] else '_';
    }
    KeywordIsWord(name);
    if AllIdentChars(name) {
      FixBracketsFixed(name);
    }
  }

  /** A name that is sanitised once its brackets are rewritten sanitises to
      exactly that: `foo[bar]` becomes `foo_bar`. */
  lemma SanitizeBracketed(name: string)
    requires IsSanitized(FixBrackets(name))
    ensures SanitizeParamName(name) == FixBrackets(name)
  {
    var f := FixBrackets(name);
    assert PrefixDigit(f) == f;
    assert MapNonIdent(f) == f;
  }

  /** The value of the sanitiser, character by character: after the
      bracket rewrite `f`, the stem is `p_` when `f` starts with a digit,
      then one character per character of `f` (itself when it is an
      identifier character, `_` otherwise); the result is the stem, with
      `_param` appended exactly when the stem is a reserved word. */
  lemma SanitizeParamNameValue(name: string)
    ensures var f := FixBrackets(name);
      var off := if |f| > 0 && IsDigit(f[0]) then 2 else 0;
      var s := Stem(name);
      && |s| == off + |f|
      && (off == 2 ==> s[0] == 'p' && s[1] == '_')
      && (forall i :: 0 <= i < |f| ==> s[off + i] == (if IsIdentChar(f[i]) then f[i] else '_'))
      && SanitizeParamName(name) == (if IsKeyword(s) then s + "_param" else s)
  {
    var f := FixBrackets(name);
    StemValue(f);
    assert Stem(name) == MapNonIdent(PrefixDigit(f));
    SanitizeIsStem(name);
  }

  // The reserved-word step on the stem.
  lemma SanitizeIsStem(name: string)
    ensures SanitizeParamName(name) == (if IsKeyword(Stem(name)) then Stem(name) + "_param" else Stem(name))
  {
  }

  // Steps 2 and 3 on the bracket-fixed name `f`, character by character.
  lemma StemValue(f: string)
    ensures var off := if |f| > 0 && IsDigit(f[0]) then 2 else 0;
      var s := MapNonIdent(PrefixDigit(f));
      && |s| == off + |f|
      && (off == 2 ==> s[0] == 'p' && s[1] == '_')
      && (forall i :: 0 <= i < |f| ==> s[off + i] == (if IsIdentChar(f[i]) then f[i] else '_'))
  {
    var off := if |f| > 0 && IsDigit(f[0]) then 2 else 0;
    var pre := PrefixDigit(f);
    assert |pre| == off + |f|;
    forall i | 0 <= i < |f| ensures pre[off + i] == f[i] {
    }
    if off == 2 {
      assert pre[0] == 'p' && pre[1] == '_';
    }
  }

  /** `if]` loses its bracket and is then a reserved word. */
  lemma SanitizeReservedAfterBracket()
    ensures SanitizeParamName("if]") == "if_param"
  {
    assert FixBrackets("if]") == "if" by {
      assert "if]"[1..] == "f]";
      assert "f]"[1..] == "]";
      assert "]"[1..] == "";
      assert FixBrackets("]") == "";
      assert FixBrackets("f]") == "f";
    }
    assert Stem("if]") == "if";
    assert IsKeyword("if") by {
      assert Keywords[17] == "if";
      InListAt("if", Keywords, 17);
    }
  }

  /** `foo-bar` has its dash mapped to `_`. */
  lemma SanitizeDash()
    ensures SanitizeParamName("foo-bar") == "foo_bar"
  {
    DashStem();
    NotKeyword("foo_bar", 3);
  }

  lemma DashStem()
    ensures Stem("foo-bar") == "foo_bar"
  {
    var n := "foo-bar";
    assert '[' !in n && ']' !in n;
    FixBracketsPlain(n);
    assert PrefixDigit(n) == n;
    var m := MapNonIdent(n);
    assert m[0] == 'f' && m[1] == 'o' && m[2] == 'o' && m[3] == '_';
    assert m[4] == 'b' && m[5] == 'a' && m[6] == 'r';
  }

  /** `2x` starts with a digit and gets the prefix `p_`. */
  lemma SanitizeLeadingDigit()
    ensures SanitizeParamName("2x") == "p_2x"
  {
    assert Stem("2x") == "p_2x" by {
      FixBracketsPlain("2x");
      assert PrefixDigit("2x") == "p_2x";
      assert MapNonIdent("p_2x") == "p_2x";
    }
    NotKeyword("p_2x", 1);
  }

  /** A name that is empty after the bracket step stays empty: `]`
      sanitises to "", and two such parameters are named "" and `_2`. */
  lemma SanitizeToEmpty()
    ensures SanitizeParamName("]") == ""
    ensures SanitizeParamName("") == ""
    ensures AssignNames(["]", "]"]) == ["", "_2"]
  {
    assert FixBrackets("]") == "";
    assert Stem("]") == "" && Stem("") == "";
    KeywordIsWord("");
    DuplicateGetsSuffixTwo("]");
    assert "" + "_2" == "_2";
  }

  /** Sanitising a sanitised name changes nothing. */
  lemma SanitizeIdempotent(name: string)
    ensures SanitizeParamName(SanitizeParamName(name)) == SanitizeParamName(name)
  {
  }

  // ---------------------------------------------------------------------
  // get_unique_name: first occurrence keeps the base, later ones get the
  // smallest free suffix `_2`, `_3`, ...
  // ---------------------------------------------------------------------

  function Candidate(base: string, k: nat): string {
    base + "_" + NatToString(k)
  }

  function MaxLen(names: seq<string>): (m: nat)
    ensures forall i :: 0 <= i < |names| ==> |names[i]| <= m
  {
    if names == [] then 0
    else
      var rest := MaxLen(names[1..]);
      assert forall i :: 1 <= i < |names| ==> names[i] == names[1..][i - 1];
      if |names[0]| > rest then |names[0]| else rest
  }

  /** The smallest `k' >= k` whose candidate is not yet used. */
  function FreeSuffix(base: string, used: seq<string>, k: nat): (r: nat)
    requires k >= 2
    ensures r >= k
    ensures Candidate(base, r) !in used
    ensures forall j :: k <= j < r ==> Candidate(base, j) in used
    decreases Pow10(MaxLen(used)) - k
  {
    if Candidate(base, k) !in used then k
    else
      assert k < Pow10(MaxLen(used)) by {
        var i :| 0 <= i < |used| && used[i] == Candidate(base, k);
        NatToStringLength(k, MaxLen(used));
      }
      FreeSuffix(base, used, k + 1)
  }

  /** `get_unique_name` with the names used so far in this function. */
  function UniqueName(base: string, used: seq<string>): (r: string)
    ensures r !in used
    ensures base !in used ==> r == base
    ensures base in used ==> r == Candidate(base, FreeSuffix(base, used, 2))
    ensures IsSanitized(base) ==> IsSanitized(r)
  {
    if base !in used then base
    else
      var k := FreeSuffix(base, used, 2);
      var r := Candidate(base, k);
      assert IsSanitized(base) ==> IsSanitized(r) by {
        if IsSanitized(base) {
          NotKeyword(r, |base|);
          assert forall i :: |base| < i < |r| ==> r[i] == NatToString(k)[i - |base| - 1];
        }
      }
      r
  }

  /** No name occurs twice. */
  predicate Distinct(names: seq<string>) {
    forall i, j :: 0 <= i < j < |names| ==> names[i] != names[j]
  }

  /** Prepending a fresh name keeps the names distinct and fresh. */
  lemma ConsFresh(n: string, rest: seq<string>, used: seq<string>)
    requires n !in used
    requires forall i :: 0 <= i < |rest| ==> rest[i] !in used + [n]
    requires Distinct(rest)
    ensures Distinct([n] + rest)
    ensures forall i :: 0 <= i < |[n] + rest| ==> ([n] + rest)[i] !in used
  {
    var r := [n] + rest;
    forall i, j | 0 <= i < j < |r| ensures r[i] != r[j] {
      assert r[j] == rest[j - 1];
      if i > 0 {
        assert r[i] == rest[i - 1];
      } else {
        assert rest[j - 1] !in used + [n];
      }
    }
    forall i | 0 <= i < |r| ensures r[i] !in used {
      if i > 0 {
        assert r[i] == rest[i - 1];
        assert rest[i - 1] !in used + [n];
      }
    }
  }

  lemma ConsPrefix(n: string, rest: seq<string>, used: seq<string>)
    ensures forall i :: 1 <= i <= |rest| ==> used + ([n] + rest)[..i] == (used + [n]) + rest[..i - 1]
    ensures used + ([n] + rest)[..0] == used
  {
    var r := [n] + rest;
    forall i | 1 <= i <= |rest| ensures used + r[..i] == (used + [n]) + rest[..i - 1] {
      assert r[..i] == [n] + rest[..i - 1];
    }
  }

  /** The generated identifiers of one function, in parameter order, given
      the identifiers already taken. */
  function AssignNamesFrom(names: seq<string>, used: seq<string>): (r: seq<string>)
    ensures |r| == |names|
    ensures forall i :: 0 <= i < |r| ==> r[i] !in used
    ensures Distinct(r)
    ensures forall i :: 0 <= i < |r| ==> r[i] == UniqueName(SanitizeParamName(names[i]), used + r[..i])
    ensures forall i :: 0 <= i < |r| ==> IsSanitized(r[i])
  {
    if names == [] then []
    else
      var n := UniqueName(SanitizeParamName(names[0]), used);
      var rest := AssignNamesFrom(names[1..], used + [n]);
      ConsFresh(n, rest, used);
      ConsPrefix(n, rest, used);
      assert forall i :: 1 <= i < |names| ==> names[1..][i - 1] == names[i];
      [n] + rest
  }

  /** The generated identifiers of one `build_function_code` call. */
  function AssignNames(names: seq<string>): (r: seq<string>)
    ensures |r| == |names|
    ensures Distinct(r)
    ensures forall i :: 0 <= i < |r| ==> IsSanitized(r[i])
    ensures forall i :: 0 <= i < |r| ==> r[i] == UniqueName(SanitizeParamName(names[i]), r[..i])
  {
    var r := AssignNamesFrom(names, []);
    assert forall i :: 0 <= i < |r| ==> [] + r[..i] == r[..i];
    r
  }

  /** A repeated name: the first keeps the sanitised base, the second gets `_2`. */
  lemma DuplicateGetsSuffixTwo(name: string)
    ensures var s := SanitizeParamName(name);
      AssignNames([name, name]) == [s, s + "_2"]
  {
    var s := SanitizeParamName(name);
    var r := AssignNames([name, name]);
    assert r[..0] == [];
    assert r[0] == s;
    assert r[..1] == [s];
    SecondUse(s);
    assert r[1] == s + "_2";
    assert r == [r[0], r[1]];
  }

  /** A name used once already gets `_2`. */
  lemma SecondUse(s: string)
    ensures UniqueName(s, [s]) == s + "_2"
  {
    assert NatToString(2) == "2";
    assert Candidate(s, 2) == s + "_2";
    assert s + "_2" != s by { assert |s + "_2"| != |s|; }
    assert FreeSuffix(s, [s], 2) == 2;
  }

  // ---------------------------------------------------------------------
  // generate_function_name
  // ---------------------------------------------------------------------

  function FunctionName(httpMethod: string, path: string): string {
    Lower(httpMethod) + "_" + SnakeCase(path)
  }

  /** For a lower-case verb the name is `<verb>_<snake_case(path)>`: only
      `[0-9a-z_]`, starting with a letter, and never a reserved word. */
  lemma FunctionNameShape(httpMethod: string, path: string)
    requires httpMethod != []
    requires forall i :: 0 <= i < |httpMethod| ==> IsLower(Lower(httpMethod)[i])
    ensures var f := FunctionName(httpMethod, path);
      && (forall i :: 0 <= i < |f| ==> IsDigit(f[i]) || IsLower(f[i]) || f[i] == '_')
      && IsLower(f[0])
      && !IsKeyword(f)
      && StartsWith(f, Lower(httpMethod) + "_")
      && f[|httpMethod| + 1..] == SnakeCase(path)
  {
    SnakeCaseShape(path);
    UnderscoreJoin(Lower(httpMethod), SnakeCase(path));
  }

  /** `v + "_" + sc` for a lower-case word `v` and a snake_case `sc`. */
  lemma UnderscoreJoin(v: string, sc: string)
    requires v != [] && forall i :: 0 <= i < |v| ==> IsLower(v[i])
    requires IsSnake(sc)
    ensures var f := v + "_" + sc;
      && (forall i :: 0 <= i < |f| ==> IsDigit(f[i]) || IsLower(f[i]) || f[i] == '_')
      && IsLower(f[0])
      && !IsKeyword(f)
      && StartsWith(f, v + "_")
      && f[|v| + 1..] == sc
  {
    var f := v + "_" + sc;
    assert f[|v|] == '_';
    assert f[0] == v[0];
    NotKeyword(f, |v|);
    assert f[..|v| + 1] == v + "_";
    assert f[|v| + 1..] == sc;
    forall i | 0 <= i < |f| ensures IsDigit(f[i]) || IsLower(f[i]) || f[i] == '_' {
      if i < |v| {
        assert f[i] == v[i];
      } else if i > |v| {
        assert f[i] == sc[i - |v| - 1];
      }
    }
  }
}
