/** URL templates (client_generator.py): `path_to_fstring`, and the rewrite
    of each `{original}` placeholder of the path into `{generated}`, the
    identifier the generated function takes the value from. */
module UrlTemplate {
  import opened Results
  import opened Text

  /** One path parameter: the identifier the generated function uses and the
      name the OpenAPI path template uses. */
  datatype PathBinding = PathBinding(py: string, original: string)

  function Placeholder(name: string): (r: string)
    ensures |r| == |name| + 2 && r[0] == '{' && r[|r| - 1] == '}'
  {
    "{" + name + "}"
  }

  /** `path_to_fstring`: rewrites every `{p}` to `{p}`, so the path comes back
      unchanged. */
  method PathToFString(path: string, pathParams: seq<string>) returns (newPath: string)
    ensures newPath == path
  {
    newPath := path;
    var i := 0;
    while i < |pathParams|
      invariant 0 <= i <= |pathParams|
      invariant newPath == path
    {
      var placeholder := Placeholder(pathParams[i]);
      if Contains(newPath, placeholder) {
        ReplaceIdentity(newPath, placeholder);
        newPath := Replace(newPath, placeholder, Placeholder(pathParams[i]));
      }
      i := i + 1;
    }
  }

  // ---------------------------------------------------------------------
  // As written: one `str.replace` per path parameter, in order.
  // ---------------------------------------------------------------------

  function SubstituteSequential(path: string, bindings: seq<PathBinding>): string
    decreases |bindings|
  {
    if bindings == [] then path
    else
      var b := bindings[0];
      SubstituteSequential(Replace(path, Placeholder(b.original), Placeholder(b.py)), bindings[1..])
  }

  // ---------------------------------------------------------------------
  // Corrected: one left-to-right pass; text already produced is never
  // scanned again.
  // ---------------------------------------------------------------------

  /** The first binding, from index `i` on, whose placeholder starts `s`. */
  function FirstMatchFrom(s: string, bindings: seq<PathBinding>, i: nat): (r: Option<nat>)
    requires i <= |bindings|
    ensures r.Some? ==> i <= r.value < |bindings| && StartsWith(s, Placeholder(bindings[r.value].original))
    ensures r.Some? ==> forall j :: i <= j < r.value ==> !StartsWith(s, Placeholder(bindings[j].original))
    ensures r.None? ==> forall j :: i <= j < |bindings| ==> !StartsWith(s, Placeholder(bindings[j].original))
    decreases |bindings| - i
  {
    if i == |bindings| then None
    else if StartsWith(s, Placeholder(bindings[i].original)) then Some(i)
    else FirstMatchFrom(s, bindings, i + 1)
  }

  function FirstMatch(s: string, bindings: seq<PathBinding>): Option<nat> {
    FirstMatchFrom(s, bindings, 0)
  }

  function SubstituteOnce(path: string, bindings: seq<PathBinding>): string
    decreases |path|
  {
    if path == [] then []
    else match FirstMatch(path, bindings)
      case Some(k) =>
        var b := bindings[k];
        Placeholder(b.py) + SubstituteOnce(path[|Placeholder(b.original)|..], bindings)
      case None => [path[0]] + SubstituteOnce(path[1..], bindings)
  }

  /** Text that cannot start a placeholder is copied through. */
  lemma NoBraceCopied(c: char, rest: string, bindings: seq<PathBinding>)
    requires c != '{'
    ensures SubstituteOnce([c] + rest, bindings) == [c] + SubstituteOnce(rest, bindings)
  {
    var s := [c] + rest;
    assert s[1..] == rest;
    forall j | 0 <= j < |bindings| ensures !StartsWith(s, Placeholder(bindings[j].original)) {
      assert Placeholder(bindings[j].original)[0] == '{';
      assert s[0] == c;
    }
  }

  lemma {:induction false} NoBraceStringCopied(x: string, rest: string, bindings: seq<PathBinding>)
    requires '{' !in x
    ensures SubstituteOnce(x + rest, bindings) == x + SubstituteOnce(rest, bindings)
    decreases |x|
  {
    if x != [] {
      var t := x[1..];
      assert '{' !in t by {
        assert forall i :: 0 <= i < |t| ==> t[i] == x[i + 1];
      }
      NoBraceStringCopied(t, rest, bindings);
      CopiedStep(x, rest, bindings);
      assert [x[0]] + (t + SubstituteOnce(rest, bindings)) == x + SubstituteOnce(rest, bindings);
    } else {
      assert x + rest == rest;
    }
  }

  // One step of NoBraceStringCopied: the first character of `x` is copied.
  lemma CopiedStep(x: string, rest: string, bindings: seq<PathBinding>)
    requires x != [] && x[0] != '{'
    ensures SubstituteOnce(x + rest, bindings) == [x[0]] + SubstituteOnce(x[1..] + rest, bindings)
  {
    assert x + rest == [x[0]] + (x[1..] + rest);
    NoBraceCopied(x[0], x[1..] + rest, bindings);
  }

  /** A template piece: a literal character, or a `{name}` placeholder. */
  datatype Piece = Lit(c: char) | Hole(name: string)

  function RenderOriginal(ps: seq<Piece>): string
    decreases |ps|
  {
    if ps == [] then []
    else
      (match ps[0]
       case Lit(c) => [c]
       case Hole(n) => Placeholder(n)) + RenderOriginal(ps[1..])
  }

  /** The first binding for an original name, if any. */
  function Binding(name: string, bindings: seq<PathBinding>): (r: Option<PathBinding>)
    ensures r.Some? ==> r.value in bindings && r.value.original == name
    ensures r.None? ==> forall k :: 0 <= k < |bindings| ==> bindings[k].original != name
  {
    if bindings == [] then None
    else if bindings[0].original == name then Some(bindings[0])
    else Binding(name, bindings[1..])
  }

  /** Every placeholder bound to a path parameter carries that parameter's
      generated identifier; every other piece is kept. */
  function RenderGenerated(ps: seq<Piece>, bindings: seq<PathBinding>): string
    decreases |ps|
  {
    if ps == [] then []
    else
      (match ps[0]
       case Lit(c) => [c]
       case Hole(n) =>
         match Binding(n, bindings)
         case Some(b) => Placeholder(b.py)
         case None => Placeholder(n)) + RenderGenerated(ps[1..], bindings)
  }

  predicate BraceFree(s: string) {
    '{' !in s && '}' !in s
  }

  /** Literals are not `{` and placeholder names contain no brace. */
  predicate PiecesShape(ps: seq<Piece>) {
    forall i :: 0 <= i < |ps| ==> match ps[i] case Lit(c) => c != '{' case Hole(n) => BraceFree(n)
  }

  /** The shape of a template the substitution is specified on: literals are
      not `{`, placeholder names and bound names contain no brace. */
  predicate WellFormedTemplate(ps: seq<Piece>, bindings: seq<PathBinding>) {
    && PiecesShape(ps)
    && (forall k :: 0 <= k < |bindings| ==> '}' !in bindings[k].original)
  }

  /** Position of the first `c` in `t` (`|t|` when there is none). */
  function IndexOf(t: string, c: char): nat
  {
    if t == [] || t[0] == c then 0 else 1 + IndexOf(t[1..], c)
  }

  lemma {:induction false} IndexOfAfter(o: string, x: string)
    requires '}' !in o
    ensures IndexOf(o + "}" + x, '}') == |o|
    decreases |o|
  {
    if o != [] {
      assert (o + "}" + x)[1..] == o[1..] + "}" + x;
      assert '}' !in o[1..] by {
        assert forall i :: 0 <= i < |o[1..]| ==> o[1..][i] == o[i + 1];
      }
      IndexOfAfter(o[1..], x);
    } else {
      assert o + "}" + x == "}" + x;
    }
  }

  /** A placeholder `{o}` starts `{n}...` only when `o == n`, for brace-free names. */
  lemma PlaceholderPrefix(o: string, n: string, rest: string)
    requires '}' !in o && '}' !in n
    ensures StartsWith(Placeholder(n) + rest, Placeholder(o)) <==> o == n
  {
    var s := Placeholder(n) + rest;
    var p := Placeholder(o);
    if StartsWith(s, p) {
      assert s[1..] == n + "}" + rest;
      assert s[..|p|] == p;
      assert s[1..] == o + "}" + s[|p|..] by {
        assert s == s[..|p|] + s[|p|..];
      }
      IndexOfAfter(n, rest);
      IndexOfAfter(o, s[|p|..]);
      assert o == s[1..][..|o|];
      assert n == s[1..][..|n|];
    }
    if o == n {
      assert s[..|p|] == p;
    }
  }

  /** The first match at a placeholder is the first binding of its name. */
  lemma {:induction false} FirstMatchAtHole(n: string, rest: string, bindings: seq<PathBinding>, i: nat)
    requires i <= |bindings|
    requires '}' !in n
    requires forall k :: 0 <= k < |bindings| ==> '}' !in bindings[k].original
    ensures FirstMatchFrom(Placeholder(n) + rest, bindings, i).Some? ==>
      FirstMatchFrom(Placeholder(n) + rest, bindings, i).value < |bindings| &&
      Binding(n, bindings[i..]) == Some(bindings[FirstMatchFrom(Placeholder(n) + rest, bindings, i).value])
    ensures FirstMatchFrom(Placeholder(n) + rest, bindings, i).None? ==> Binding(n, bindings[i..]).None?
    decreases |bindings| - i
  {
    if i < |bindings| {
      PlaceholderPrefix(bindings[i].original, n, rest);
      assert bindings[i..][0] == bindings[i];
      assert bindings[i..][1..] == bindings[i + 1..];
      if bindings[i].original != n {
        FirstMatchAtHole(n, rest, bindings, i + 1);
      }
    }
  }

  lemma HoleMatched(n: string, rest: string, bindings: seq<PathBinding>, k: nat)
    requires k < |bindings| && bindings[k].original == n
    requires FirstMatch(Placeholder(n) + rest, bindings) == Some(k)
    ensures SubstituteOnce(Placeholder(n) + rest, bindings)
         == Placeholder(bindings[k].py) + SubstituteOnce(rest, bindings)
  {
    var s := Placeholder(n) + rest;
    assert s[|Placeholder(n)|..] == rest;
  }

  lemma HoleUnmatched(n: string, rest: string, bindings: seq<PathBinding>)
    requires '{' !in n
    requires FirstMatch(Placeholder(n) + rest, bindings).None?
    ensures SubstituteOnce(Placeholder(n) + rest, bindings)
         == Placeholder(n) + SubstituteOnce(rest, bindings)
  {
    var s := Placeholder(n) + rest;
    assert s[0] == '{';
    assert s[1..] == n + "}" + rest;
    assert '{' !in n + "}";
    NoBraceStringCopied(n + "}", rest, bindings);
  }

  /** The image of one placeholder, given the text after it. */
  lemma HoleStep(n: string, rest: string, bindings: seq<PathBinding>)
    requires BraceFree(n)
    requires forall k :: 0 <= k < |bindings| ==> '}' !in bindings[k].original
    ensures SubstituteOnce(Placeholder(n) + rest, bindings) ==
      (if Binding(n, bindings).Some? then Placeholder(Binding(n, bindings).value.py) else Placeholder(n))
      + SubstituteOnce(rest, bindings)
  {
    var s := Placeholder(n) + rest;
    FirstMatchAtHole(n, rest, bindings, 0);
    assert bindings[0..] == bindings;
    var m := FirstMatch(s, bindings);
    if m.Some? {
      PlaceholderPrefix(bindings[m.value].original, n, rest);
      HoleMatched(n, rest, bindings, m.value);
    } else {
      HoleUnmatched(n, rest, bindings);
    }
  }

  /** The corrected substitution rewrites each placeholder of the original
      path exactly once, into its own parameter's identifier, and leaves
      everything else as it was. */
  lemma {:induction false} SubstituteOnceRewritesEachPlaceholder(ps: seq<Piece>, bindings: seq<PathBinding>)
    requires WellFormedTemplate(ps, bindings)
    ensures SubstituteOnce(RenderOriginal(ps), bindings) == RenderGenerated(ps, bindings)
    decreases |ps|
  {
    if ps != [] {
      assert WellFormedTemplate(ps[1..], bindings) by {
        assert forall i :: 0 <= i < |ps[1..]| ==> ps[1..][i] == ps[i + 1];
      }
      SubstituteOnceRewritesEachPlaceholder(ps[1..], bindings);
      var rest := RenderOriginal(ps[1..]);
      match ps[0]
      case Lit(c) =>
        assert c != '{' by { assert ps[0] == Lit(c); }
        NoBraceCopied(c, rest, bindings);
      case Hole(n) =>
        assert BraceFree(n) by { assert ps[0] == Hole(n); }
        HoleStep(n, rest, bindings);
    }
  }

  // ---------------------------------------------------------------------
  // The sequential replacement on templates
  // ---------------------------------------------------------------------

  /** Every `{o}` placeholder of a template renamed to `{p}`. */
  function RenameHoles(ps: seq<Piece>, o: string, p: string): seq<Piece>
    decreases |ps|
  {
    if ps == [] then []
    else [if ps[0] == Hole(o) then Hole(p) else ps[0]] + RenameHoles(ps[1..], o, p)
  }

  /** The name a placeholder `{n}` ends up with after one `str.replace` per
      binding, in order: each rewrite sees the result of the ones before. */
  function SequentialName(n: string, bindings: seq<PathBinding>): string
    decreases |bindings|
  {
    if bindings == [] then n
    else SequentialName(if n == bindings[0].original then bindings[0].py else n, bindings[1..])
  }

  function RenameSequential(ps: seq<Piece>, bindings: seq<PathBinding>): seq<Piece>
    decreases |ps|
  {
    if ps == [] then []
    else
      [match ps[0] case Lit(c) => Lit(c) case Hole(n) => Hole(SequentialName(n, bindings))]
      + RenameSequential(ps[1..], bindings)
  }

  lemma PiecesShapeTail(ps: seq<Piece>)
    requires ps != [] && PiecesShape(ps)
    ensures PiecesShape(ps[1..])
  {
    assert forall i :: 0 <= i < |ps[1..]| ==> ps[1..][i] == ps[i + 1];
  }

  /** Brace-free text is copied through a replacement whose pattern starts
      with `{`. */
  lemma {:induction false} ReplaceBraceFree(x: string, rest: string, pat: string, rep: string)
    requires '{' !in x
    requires |pat| > 0 && pat[0] == '{'
    ensures Replace(x + rest, pat, rep) == x + Replace(rest, pat, rep)
    decreases |x|
  {
    if x != [] {
      assert '{' !in x[1..] by {
        assert forall i :: 0 <= i < |x[1..]| ==> x[1..][i] == x[i + 1];
      }
      ReplaceBraceFree(x[1..], rest, pat, rep);
      assert x + rest == [x[0]] + (x[1..] + rest);
      ReplaceMiss(x[0], x[1..] + rest, pat, rep);
    } else {
      assert x + rest == rest;
    }
  }

  /** `str.replace('{o}', '{p}')` at a placeholder `{n}`: it is rewritten
      exactly when `n == o`. */
  lemma ReplaceHole(n: string, rest: string, o: string, p: string)
    requires BraceFree(n) && '}' !in o
    ensures Replace(Placeholder(n) + rest, Placeholder(o), Placeholder(p))
         == (if n == o then Placeholder(p) else Placeholder(n)) + Replace(rest, Placeholder(o), Placeholder(p))
  {
    var s := Placeholder(n) + rest;
    var pat := Placeholder(o);
    var rep := Placeholder(p);
    if n == o {
      ReplaceHit(pat, rest, rep);
    } else {
      ReplaceOtherHole(n, rest, o, p);
    }
  }

  // ReplaceHole for a placeholder of another name: it is copied.
  lemma ReplaceOtherHole(n: string, rest: string, o: string, p: string)
    requires BraceFree(n) && '}' !in o && n != o
    ensures Replace(Placeholder(n) + rest, Placeholder(o), Placeholder(p))
         == Placeholder(n) + Replace(rest, Placeholder(o), Placeholder(p))
  {
    var s := Placeholder(n) + rest;
    var pat := Placeholder(o);
    var rep := Placeholder(p);
    PlaceholderPrefix(o, n, rest);
    assert s[1..] == (n + "}") + rest;
    assert '{' !in n + "}";
    ReplaceBraceFree(n + "}", rest, pat, rep);
    if |s| < |pat| {
      assert |rest| < |pat|;
    } else {
      assert s[..|pat|] != pat;
      assert Replace(s, pat, rep) == [s[0]] + Replace(s[1..], pat, rep);
    }
    assert Placeholder(n) == ['{'] + (n + "}");
  }

  /** One `str.replace` of a placeholder renames the matching pieces. */
  lemma {:induction false} ReplaceRenders(ps: seq<Piece>, o: string, p: string)
    requires PiecesShape(ps) && '}' !in o
    ensures Replace(RenderOriginal(ps), Placeholder(o), Placeholder(p)) == RenderOriginal(RenameHoles(ps, o, p))
    decreases |ps|
  {
    if ps != [] {
      PiecesShapeTail(ps);
      ReplaceRenders(ps[1..], o, p);
      var rest := RenderOriginal(ps[1..]);
      var renamed := RenameHoles(ps, o, p);
      assert renamed[1..] == RenameHoles(ps[1..], o, p);
      match ps[0]
      case Lit(c) =>
        assert c != '{' by { assert ps[0] == Lit(c); }
        ReplaceMiss(c, rest, Placeholder(o), Placeholder(p));
      case Hole(n) =>
        assert BraceFree(n) by { assert ps[0] == Hole(n); }
        ReplaceHole(n, rest, o, p);
    }
  }

  lemma {:induction false} RenameKeepsShape(ps: seq<Piece>, o: string, p: string)
    requires PiecesShape(ps) && BraceFree(p)
    ensures PiecesShape(RenameHoles(ps, o, p))
    decreases |ps|
  {
    if ps != [] {
      PiecesShapeTail(ps);
      RenameKeepsShape(ps[1..], o, p);
      var r := RenameHoles(ps, o, p);
      assert r[1..] == RenameHoles(ps[1..], o, p);
      forall i | 0 <= i < |r|
        ensures match r[i] case Lit(c) => c != '{' case Hole(n) => BraceFree(n)
      {
        if i > 0 { assert r[i] == r[1..][i - 1]; }
      }
    }
  }

  lemma {:induction false} RenameStep(ps: seq<Piece>, bindings: seq<PathBinding>)
    requires bindings != []
    ensures RenameSequential(RenameHoles(ps, bindings[0].original, bindings[0].py), bindings[1..])
         == RenameSequential(ps, bindings)
    decreases |ps|
  {
    if ps != [] {
      RenameStep(ps[1..], bindings);
      var r := RenameHoles(ps, bindings[0].original, bindings[0].py);
      assert r[1..] == RenameHoles(ps[1..], bindings[0].original, bindings[0].py);
    }
  }

  lemma {:induction false} RenameNone(ps: seq<Piece>)
    ensures RenameSequential(ps, []) == ps
    decreases |ps|
  {
    if ps != [] {
      RenameNone(ps[1..]);
      assert ps == [ps[0]] + ps[1..];
    }
  }

  /** One `str.replace` per binding, in order, renames each placeholder
      through the whole chain of bindings. */
  lemma {:induction false} SequentialRenders(ps: seq<Piece>, bindings: seq<PathBinding>)
    requires PiecesShape(ps)
    requires forall k :: 0 <= k < |bindings| ==> '}' !in bindings[k].original && BraceFree(bindings[k].py)
    ensures SubstituteSequential(RenderOriginal(ps), bindings) == RenderOriginal(RenameSequential(ps, bindings))
    decreases |bindings|
  {
    if bindings == [] {
      RenameNone(ps);
    } else {
      var b := bindings[0];
      var renamed := RenameHoles(ps, b.original, b.py);
      ReplaceRenders(ps, b.original, b.py);
      RenameKeepsShape(ps, b.original, b.py);
      SequentialRenders(renamed, bindings[1..]);
      RenameStep(ps, bindings);
    }
  }

  /** No two path parameters share an OpenAPI name, and no generated
      identifier is the OpenAPI name of a later path parameter: then no
      rewrite can touch the output of an earlier one. */
  predicate NoRewriteChain(bindings: seq<PathBinding>) {
    forall i, j :: 0 <= i < j < |bindings| ==>
      bindings[j].original != bindings[i].original && bindings[j].original != bindings[i].py
  }

  lemma {:induction false} SequentialNameUnbound(x: string, bindings: seq<PathBinding>)
    requires forall k :: 0 <= k < |bindings| ==> bindings[k].original != x
    ensures SequentialName(x, bindings) == x
    decreases |bindings|
  {
    if bindings != [] {
      assert bindings[0].original != x;
      SequentialNameUnbound(x, bindings[1..]);
    }
  }

  /** Without rewrite chains a placeholder ends with the identifier of the
      path parameter of its name, or keeps its name when there is none. */
  lemma {:induction false} SequentialNameIsBinding(n: string, bindings: seq<PathBinding>)
    requires NoRewriteChain(bindings)
    ensures SequentialName(n, bindings)
         == (if Binding(n, bindings).Some? then Binding(n, bindings).value.py else n)
    decreases |bindings|
  {
    if bindings != [] {
      var b := bindings[0];
      var tail := bindings[1..];
      assert NoRewriteChain(tail) by {
        assert forall k :: 0 <= k < |tail| ==> tail[k] == bindings[k + 1];
      }
      if n == b.original {
        assert forall k :: 0 <= k < |tail| ==> tail[k].original != b.py by {
          assert forall k :: 0 <= k < |tail| ==> tail[k] == bindings[k + 1];
        }
        SequentialNameUnbound(b.py, tail);
      } else {
        SequentialNameIsBinding(n, tail);
      }
    }
  }

  lemma {:induction false} RenameSequentialGenerated(ps: seq<Piece>, bindings: seq<PathBinding>)
    requires NoRewriteChain(bindings)
    ensures RenderOriginal(RenameSequential(ps, bindings)) == RenderGenerated(ps, bindings)
    decreases |ps|
  {
    if ps != [] {
      RenameSequentialGenerated(ps[1..], bindings);
      match ps[0]
      case Lit(c) =>
      case Hole(n) => SequentialNameIsBinding(n, bindings);
    }
  }

  /** The source's sequential replacement rewrites each placeholder of the
      original path into its own parameter's identifier, as long as no
      rewrite chain exists. */
  lemma SequentialRewritesEachPlaceholder(ps: seq<Piece>, bindings: seq<PathBinding>)
    requires WellFormedTemplate(ps, bindings)
    requires forall k :: 0 <= k < |bindings| ==> BraceFree(bindings[k].py)
    requires NoRewriteChain(bindings)
    ensures SubstituteSequential(RenderOriginal(ps), bindings) == RenderGenerated(ps, bindings)
  {
    SequentialRenders(ps, bindings);
    RenameSequentialGenerated(ps, bindings);
  }

  /** Without rewrite chains the sequential replacement and the single pass
      give the same URL. */
  lemma SequentialAgreesWithOnce(ps: seq<Piece>, bindings: seq<PathBinding>)
    requires WellFormedTemplate(ps, bindings)
    requires forall k :: 0 <= k < |bindings| ==> BraceFree(bindings[k].py)
    requires NoRewriteChain(bindings)
    ensures SubstituteSequential(RenderOriginal(ps), bindings) == SubstituteOnce(RenderOriginal(ps), bindings)
  {
    SequentialRewritesEachPlaceholder(ps, bindings);
    SubstituteOnceRewritesEachPlaceholder(ps, bindings);
  }

  /** A placeholder whose name is bound twice, first to itself and then to
      `n_2`: the second replacement wins, while the single pass keeps the
      first binding. */
  lemma RedeclaredRewrite(n: string)
    requires BraceFree(n)
    ensures var bindings := [PathBinding(n, n), PathBinding(n + "_2", n)];
      && SubstituteSequential(Placeholder(n), bindings) == Placeholder(n + "_2")
      && SubstituteOnce(Placeholder(n), bindings) == Placeholder(n)
  {
    var b1, b2 := PathBinding(n, n), PathBinding(n + "_2", n);
    var bindings := [b1, b2];
    var h := Placeholder(n);
    ReplaceIdentity(h, h);
    ReplaceHit(h, [], Placeholder(n + "_2"));
    assert h + [] == h;
    assert Replace(h, h, Placeholder(n + "_2")) == Placeholder(n + "_2");
    assert bindings[1..] == [b2];
    assert [b2][1..] == [];
    assert Placeholder(b1.original) == h && Placeholder(b1.py) == h && Placeholder(b2.original) == h;
    assert SubstituteSequential(h, [b2]) == Placeholder(n + "_2");
    HoleStep(n, [], bindings);
    assert Binding(n, bindings) == Some(b1);
  }

  /** With a single path parameter the corrected pass is exactly the source's
      `str.replace`. */
  lemma {:induction false} SubstituteOnceSingle(path: string, b: PathBinding)
    ensures SubstituteOnce(path, [b]) == Replace(path, Placeholder(b.original), Placeholder(b.py))
    ensures SubstituteSequential(path, [b]) == Replace(path, Placeholder(b.original), Placeholder(b.py))
    decreases |path|
  {
    var o := Placeholder(b.original);
    var m := FirstMatch(path, [b]);
    assert m.Some? <==> StartsWith(path, o) by {
      if StartsWith(path, o) {
        assert FirstMatchFrom(path, [b], 0) == Some(0);
      }
    }
    if path == [] {
    } else if StartsWith(path, o) {
      SubstituteOnceSingle(path[|o|..], b);
    } else {
      SubstituteOnceSingle(path[1..], b);
    }
    assert [b][1..] == [];
  }

  lemma ReplaceMiss(c: char, rest: string, pat: string, rep: string)
    requires |pat| > 0 && pat[0] != c
    ensures Replace([c] + rest, pat, rep) == [c] + Replace(rest, pat, rep)
  {
    var s := [c] + rest;
    assert s[1..] == rest;
    assert |s| >= |pat| ==> s[..|pat|][0] == c;
  }

  lemma ReplaceHit(pat: string, rest: string, rep: string)
    requires |pat| > 0
    ensures Replace(pat + rest, pat, rep) == rep + Replace(rest, pat, rep)
  {
    var s := pat + rest;
    assert s[..|pat|] == pat;
    assert s[|pat|..] == rest;
  }

  lemma FirstReplace()
    ensures Replace("/{a[b]}/{a_b}", "{a[b]}", "{a_b}") == "/{a_b}/{a_b}"
  {
    var p1, q1 := "{a[b]}", "{a_b}";
    assert Replace(q1, p1, q1) == q1;
    ReplaceFirstOnly(p1, q1);
    assert "/" + (p1 + ("/" + q1)) == "/{a[b]}/{a_b}";
    assert "/" + (q1 + ("/" + q1)) == "/{a_b}/{a_b}";
  }

  /** In `/p/q`, where `q` holds no `p`, only the first segment changes. */
  lemma ReplaceFirstOnly(p: string, q: string)
    requires |p| > 0 && p[0] != '/'
    requires Replace(q, p, q) == q
    ensures Replace("/" + (p + ("/" + q)), p, q) == "/" + (q + ("/" + q))
  {
    var tail := "/" + q;
    assert Replace(tail, p, q) == tail by { ReplaceMiss('/', q, p, q); }
    assert Replace(p + tail, p, q) == q + tail by { ReplaceHit(p, tail, q); }
    ReplaceMiss('/', p + tail, p, q);
  }

  lemma SecondReplace()
    ensures Replace("/{a_b}/{a_b}", "{a_b}", "{a_b_2}") == "/{a_b_2}/{a_b_2}"
  {
    ReplaceTwice("{a_b}", "{a_b_2}");
    TwiceSpelled();
  }

  // The two sides of SecondReplace, spelled out.
  lemma TwiceSpelled()
    ensures "/" + ("{a_b}" + ("/" + "{a_b}")) == "/{a_b}/{a_b}"
    ensures "/" + ("{a_b_2}" + ("/" + "{a_b_2}")) == "/{a_b_2}/{a_b_2}"
  {
  }

  /** In `/x/x` every `x` is replaced, for any `x` that does not start with `/`. */
  lemma ReplaceTwice(x: string, y: string)
    requires |x| > 0 && x[0] != '/'
    ensures Replace("/" + (x + ("/" + x)), x, y) == "/" + (y + ("/" + y))
  {
    var tail := "/" + x;
    assert Replace(x, x, y) == y by { ReplaceHit(x, [], y); assert x + [] == x; }
    assert Replace(tail, x, y) == "/" + y by { ReplaceMiss('/', x, x, y); }
    assert Replace(x + tail, x, y) == y + ("/" + y) by { ReplaceHit(x, tail, y); }
    ReplaceMiss('/', x + tail, x, y);
  }

  lemma SequentialCase()
    ensures SubstituteSequential("/{a[b]}/{a_b}", [PathBinding("a_b", "a[b]"), PathBinding("a_b_2", "a_b")])
         == "/{a_b_2}/{a_b_2}"
  {
    var b1 := PathBinding("a_b", "a[b]");
    var b2 := PathBinding("a_b_2", "a_b");
    var bindings := [b1, b2];
    assert Placeholder(b1.original) == "{a[b]}" && Placeholder(b1.py) == "{a_b}";
    assert Placeholder(b2.original) == "{a_b}" && Placeholder(b2.py) == "{a_b_2}";
    FirstReplace();
    SecondReplace();
    assert bindings[1..] == [b2];
    assert [b2][1..] == [];
  }

  lemma OnceCase()
    ensures SubstituteOnce("/{a[b]}/{a_b}", [PathBinding("a_b", "a[b]"), PathBinding("a_b_2", "a_b")])
         == "/{a_b}/{a_b_2}"
  {
    var bindings := [PathBinding("a_b", "a[b]"), PathBinding("a_b_2", "a_b")];
    var ps := [Lit('/'), Hole("a[b]"), Lit('/'), Hole("a_b")];
    OnceCasePieces(ps, bindings);
    SubstituteOnceRewritesEachPlaceholder(ps, bindings);
  }

  /** The collision path as pieces, and what each rendering gives. */
  lemma OnceCasePieces(ps: seq<Piece>, bindings: seq<PathBinding>)
    requires ps == [Lit('/'), Hole("a[b]"), Lit('/'), Hole("a_b")]
    requires bindings == [PathBinding("a_b", "a[b]"), PathBinding("a_b_2", "a_b")]
    ensures WellFormedTemplate(ps, bindings)
    ensures RenderOriginal(ps) == "/{a[b]}/{a_b}"
    ensures RenderGenerated(ps, bindings) == "/{a_b}/{a_b_2}"
  {
    OnceCaseWellFormed(ps, bindings);
    OnceCaseOriginal(ps);
    OnceCaseGenerated(ps, bindings);
  }

  lemma OnceCaseWellFormed(ps: seq<Piece>, bindings: seq<PathBinding>)
    requires ps == [Lit('/'), Hole("a[b]"), Lit('/'), Hole("a_b")]
    requires bindings == [PathBinding("a_b", "a[b]"), PathBinding("a_b_2", "a_b")]
    ensures WellFormedTemplate(ps, bindings)
  {
    assert BraceFree("a[b]") && BraceFree("a_b");
  }

  lemma OnceCaseOriginal(ps: seq<Piece>)
    requires ps == [Lit('/'), Hole("a[b]"), Lit('/'), Hole("a_b")]
    ensures RenderOriginal(ps) == "/{a[b]}/{a_b}"
  {
    var o3 := Placeholder("a_b");
    assert RenderOriginal(ps[3..]) == o3;
    var o1 := Placeholder("a[b]") + ("/" + o3);
    assert RenderOriginal(ps[1..]) == o1 by {
      assert RenderOriginal(ps[2..]) == "/" + o3;
    }
    assert RenderOriginal(ps) == "/" + o1;
    assert "/" + o1 == "/{a[b]}/{a_b}";
  }

  lemma OnceCaseGenerated(ps: seq<Piece>, bindings: seq<PathBinding>)
    requires ps == [Lit('/'), Hole("a[b]"), Lit('/'), Hole("a_b")]
    requires bindings == [PathBinding("a_b", "a[b]"), PathBinding("a_b_2", "a_b")]
    ensures RenderGenerated(ps, bindings) == "/{a_b}/{a_b_2}"
  {
    assert Binding("a_b", bindings) == Some(bindings[1]);
    assert Binding("a[b]", bindings) == Some(bindings[0]);
    var g3 := Placeholder("a_b_2");
    assert RenderGenerated(ps[3..], bindings) == g3;
    var g1 := Placeholder("a_b") + ("/" + g3);
    assert RenderGenerated(ps[1..], bindings) == g1 by {
      assert RenderGenerated(ps[2..], bindings) == "/" + g3;
    }
    assert RenderGenerated(ps, bindings) == "/" + g1;
    assert "/" + g1 == "/{a_b}/{a_b_2}";
  }

  /** The source's sequential replacement rewrites `{a_b}` twice: the path
      parameters `a[b]` and `a_b` get the identifiers `a_b` and `a_b_2`, yet
      both placeholders end up naming `a_b_2`; the single pass keeps them apart. */
  lemma SequentialRewritesTwice()
    ensures var bindings := [PathBinding("a_b", "a[b]"), PathBinding("a_b_2", "a_b")];
      && SubstituteSequential("/{a[b]}/{a_b}", bindings) == "/{a_b_2}/{a_b_2}"
      && SubstituteOnce("/{a[b]}/{a_b}", bindings) == "/{a_b}/{a_b_2}"
  {
    SequentialCase();
    OnceCase();
  }

  /** `SequentialRewritesTwice`, for a path and bindings given by name. */
  lemma CollisionRewrites(path: string, bindings: seq<PathBinding>)
    requires path == "/{a[b]}/{a_b}"
    requires bindings == [PathBinding("a_b", "a[b]"), PathBinding("a_b_2", "a_b")]
    ensures SubstituteSequential(path, bindings) == "/{a_b_2}/{a_b_2}"
    ensures SubstituteOnce(path, bindings) == "/{a_b}/{a_b_2}"
  {
    SequentialRewritesTwice();
  }
}
