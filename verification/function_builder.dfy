/** `build_function_code` (client_generator.py): what the generated wrapper
    for one operation consists of. The source assembles Python text; the
    model returns the parts that text is made of (docstring entries,
    signature, URL template, query mapping, HTTP verb), so that each can be
    stated about. Rendering them as text is not part of this model. */
module FunctionBuilder {
  import opened Results
  import opened Text
  import opened Json
  import opened GenErrors
  import opened Refs
  import opened Naming
  import opened UrlTemplate

  /** A parameter object after `$ref` resolution: its `name`, its `in`
      (any value; only `"path"` and `"query"` are acted on) and its
      `description`. */
  datatype Decl = Decl(name: string, location: Value, description: Value)

  /** A parameter together with the identifier the generated function uses. */
  datatype Param = Param(py: string, original: string, location: Value, description: Value)

  /** One docstring line `:param <py>: (<location>) <description>`. */
  datatype DocEntry = DocEntry(py: string, location: Value, description: Value)

  /** A positional argument `<name>` or a keyword argument `<name>=None`. */
  datatype SigEntry = Required(name: string) | Optional(name: string)

  /** One entry `'<key>': <py>` of the generated `params` dict. */
  datatype QueryItem = QueryItem(key: string, py: string)

  /** The generated function: `def <name>(<signature>)`, a docstring headed
      by `header`, `url = f"<url>"`, `params = <query>` (`None` when absent)
      and a call of `requests.<verb>`. */
  datatype FunctionDescriptor = FunctionDescriptor(
    name: string,
    header: string,
    docs: seq<DocEntry>,
    signature: seq<SigEntry>,
    url: string,
    query: Option<seq<QueryItem>>,
    verb: string)

  // ---------------------------------------------------------------------
  // Reading the parameters
  // ---------------------------------------------------------------------

  /** Apply `f` to every element; the first failure aborts, as the first
      exception raised in a Python loop does. */
  function MapAll<A, B>(xs: seq<A>, f: A -> Result<B, GenError>): (r: Result<seq<B>, GenError>)
    ensures r.Ok? <==> forall i :: 0 <= i < |xs| ==> f(xs[i]).Ok?
    ensures r.Ok? ==> |r.value| == |xs| && forall i :: 0 <= i < |xs| ==> f(xs[i]) == Ok(r.value[i])
    ensures r.Err? ==> exists i :: 0 <= i < |xs| && f(xs[i]) == Err(r.error)
                                && forall j :: 0 <= j < i ==> f(xs[j]).Ok?
  {
    if xs == [] then Ok([])
    else
      var h := f(xs[0]);
      if h.Err? then Err(h.error)
      else
        var t := MapAll(xs[1..], f);
        assert forall i :: 1 <= i < |xs| ==> xs[1..][i - 1] == xs[i];
        if t.Err? then
          var k :| 0 <= k < |xs[1..]| && f(xs[1..][k]) == Err(t.error)
                   && forall j :: 0 <= j < k ==> f(xs[1..][j]).Ok?;
          assert f(xs[k + 1]) == Err(t.error);
          Err(t.error)
        else Ok([h.value] + t.value)
  }

  /** `p.get('in', 'query')`, `p.get('name', 'param')`,
      `p.get('description', '')`; a name that is not a string fails in the
      sanitiser. */
  function ReadParameter(node: Value): (r: Result<Decl, GenError>)
    ensures !node.Obj? ==> r == Err(NotAMapping("parameter"))
    ensures node.Obj? && !HasKey(node.fields, "name") ==> r.Ok? && r.value.name == "param"
    ensures r.Ok? && !HasKey(node.fields, "in") ==> r.value.location == Str("query")
    ensures r.Ok? && !HasKey(node.fields, "description") ==> r.value.description == Str("")
    ensures node.Obj? && UniqueKeys(node.fields) ==> forall i :: 0 <= i < |node.fields| ==>
      var k, v := node.fields[i].0, node.fields[i].1;
      && (k == "name" ==> (r.Ok? <==> v.Str?) && (r.Ok? ==> v == Str(r.value.name)))
      && (k == "in" && r.Ok? ==> v == r.value.location)
      && (k == "description" && r.Ok? ==> v == r.value.description)
  {
    match node
    case Obj(fields) =>
      GetUnique(fields, "name");
      GetUnique(fields, "in");
      GetUnique(fields, "description");
      (match GetOr(fields, "name", Str("param"))
       case Str(n) =>
         Ok(Decl(n, GetOr(fields, "in", Str("query")), GetOr(fields, "description", Str(""))))
       case _ => Err(NameNotAString))
    case _ => Err(NotAMapping("parameter"))
  }

  /** Resolve every parameter, then read every resolved object. */
  function ParseParameters(parameters: seq<Value>, root: Value): Result<seq<Decl>, GenError> {
    var resolved :- MapAll(parameters, p => ResolveRef(p, root));
    MapAll(resolved, ReadParameter)
  }

  // ---------------------------------------------------------------------
  // Naming and classifying the parameters
  // ---------------------------------------------------------------------

  function Names(decls: seq<Decl>): (r: seq<string>)
    ensures |r| == |decls| && forall i :: 0 <= i < |decls| ==> r[i] == decls[i].name
  {
    seq(|decls|, i requires 0 <= i < |decls| => decls[i].name)
  }

  function Pys(ps: seq<Param>): (r: seq<string>)
    ensures |r| == |ps| && forall i :: 0 <= i < |ps| ==> r[i] == ps[i].py
  {
    seq(|ps|, i requires 0 <= i < |ps| => ps[i].py)
  }

  /** `get_unique_name` applied to each parameter in order. */
  function NameParams(decls: seq<Decl>): (ps: seq<Param>)
    ensures |ps| == |decls|
    ensures forall i :: 0 <= i < |ps| ==>
      && ps[i].original == decls[i].name
      && ps[i].location == decls[i].location
      && ps[i].description == decls[i].description
    ensures Distinct(Pys(ps))
    ensures forall i :: 0 <= i < |ps| ==> IsSanitized(ps[i].py)
    ensures forall i :: 0 <= i < |ps| ==>
      ps[i].py == UniqueName(SanitizeParamName(decls[i].name), Pys(ps)[..i])
  {
    var names := AssignNames(Names(decls));
    var ps := seq(|decls|, i requires 0 <= i < |decls| =>
      Param(names[i], decls[i].name, decls[i].location, decls[i].description));
    assert Pys(ps) == names;
    ps
  }

  /** The parameters whose `in` is the string `loc`, in their order. */
  function ParamsAt(ps: seq<Param>, loc: string): (r: seq<Param>)
    ensures |r| <= |ps|
  {
    if ps == [] then []
    else if ps[0].location == Str(loc) then [ps[0]] + ParamsAt(ps[1..], loc)
    else ParamsAt(ps[1..], loc)
  }

  /** Filtering commutes with concatenation: relative order is kept. */
  lemma {:induction false} ParamsAtConcat(a: seq<Param>, b: seq<Param>, loc: string)
    ensures ParamsAt(a + b, loc) == ParamsAt(a, loc) + ParamsAt(b, loc)
    decreases |a|
  {
    if a == [] {
      assert a + b == b;
    } else {
      assert (a + b)[0] == a[0];
      assert (a + b)[1..] == a[1..] + b;
      ParamsAtConcat(a[1..], b, loc);
    }
  }

  /** Each parameter at `loc` occurs in the filtered list ... */
  lemma {:induction false} ParamsAtKeeps(ps: seq<Param>, loc: string, i: nat)
    requires i < |ps| && ps[i].location == Str(loc)
    ensures exists k :: 0 <= k < |ParamsAt(ps, loc)| && ParamsAt(ps, loc)[k] == ps[i]
    decreases i
  {
    if i == 0 {
      assert ParamsAt(ps, loc)[0] == ps[0];
    } else {
      ParamsAtKeeps(ps[1..], loc, i - 1);
      var k :| 0 <= k < |ParamsAt(ps[1..], loc)| && ParamsAt(ps[1..], loc)[k] == ps[1..][i - 1];
      if ps[0].location == Str(loc) {
        assert ParamsAt(ps, loc)[k + 1] == ps[i];
      } else {
        assert ParamsAt(ps, loc)[k] == ps[i];
      }
    }
  }

  /** ... and everything in it is a parameter at `loc`. */
  lemma {:induction false} ParamsAtFrom(ps: seq<Param>, loc: string, k: nat)
    requires k < |ParamsAt(ps, loc)|
    ensures exists i :: 0 <= i < |ps| && ps[i] == ParamsAt(ps, loc)[k]
    ensures ParamsAt(ps, loc)[k].location == Str(loc)
    decreases |ps|
  {
    var rest := ParamsAt(ps[1..], loc);
    if ps[0].location == Str(loc) {
      if k == 0 {
        assert ps[0] == ParamsAt(ps, loc)[0];
      } else {
        ParamsAtFrom(ps[1..], loc, k - 1);
        var i :| 0 <= i < |ps[1..]| && ps[1..][i] == rest[k - 1];
        assert ps[i + 1] == ParamsAt(ps, loc)[k];
      }
    } else {
      ParamsAtFrom(ps[1..], loc, k);
      var i :| 0 <= i < |ps[1..]| && ps[1..][i] == rest[k];
      assert ps[i + 1] == ParamsAt(ps, loc)[k];
    }
  }

  function PathParams(ps: seq<Param>): seq<Param> { ParamsAt(ps, "path") }

  function QueryParams(ps: seq<Param>): seq<Param> { ParamsAt(ps, "query") }

  function Docs(ps: seq<Param>): (r: seq<DocEntry>)
    ensures |r| == |ps|
    ensures forall i :: 0 <= i < |ps| ==> r[i] == DocEntry(ps[i].py, ps[i].location, ps[i].description)
  {
    seq(|ps|, i requires 0 <= i < |ps| => DocEntry(ps[i].py, ps[i].location, ps[i].description))
  }

  /** Path parameters as positional arguments, then query parameters as
      `=None` keyword arguments. */
  function Signature(ps: seq<Param>): (r: seq<SigEntry>)
    ensures |r| == |PathParams(ps)| + |QueryParams(ps)|
  {
    var pp := PathParams(ps);
    var qp := QueryParams(ps);
    seq(|pp|, k requires 0 <= k < |pp| => Required(pp[k].py))
      + seq(|qp|, k requires 0 <= k < |qp| => Optional(qp[k].py))
  }

  function PathBindings(ps: seq<Param>): (r: seq<PathBinding>)
    ensures |r| == |PathParams(ps)|
  {
    var pp := PathParams(ps);
    seq(|pp|, k requires 0 <= k < |pp| => PathBinding(pp[k].py, pp[k].original))
  }

  function QueryItems(ps: seq<Param>): (r: seq<QueryItem>)
    ensures |r| == |QueryParams(ps)|
  {
    var qp := QueryParams(ps);
    seq(|qp|, k requires 0 <= k < |qp| => QueryItem(qp[k].original, qp[k].py))
  }

  // ---------------------------------------------------------------------
  // build_function_code
  // ---------------------------------------------------------------------

  /** The wrapper for `httpMethod path` once its parameters are named. */
  function Assemble(funcName: string, httpMethod: string, path: string,
                    ps: seq<Param>, baseUrl: string): FunctionDescriptor
  {
    var q := QueryItems(ps);
    FunctionDescriptor(funcName, Upper(httpMethod) + " " + path, Docs(ps), Signature(ps),
                       baseUrl + SubstituteSequential(path, PathBindings(ps)),
                       if q == [] then None else Some(q), Lower(httpMethod))
  }

  /** The descriptor of the wrapper for `httpMethod path`. The URL is built
      as the source builds it: one `str.replace` per path parameter, in
      order (`UrlTemplate.SubstituteSequential`). */
  function BuildFunction(funcName: string, httpMethod: string, path: string,
                         parameters: seq<Value>, baseUrl: string, root: Value)
    : (r: Result<FunctionDescriptor, GenError>)
    ensures r.Ok? <==> ParseParameters(parameters, root).Ok?
    ensures r.Ok? ==> r.value.name == funcName && |r.value.docs| == |parameters|
    ensures r.Ok? ==> r.value.verb == Lower(httpMethod)
    ensures r.Ok? ==> (StartsWith(r.value.header, Upper(httpMethod) + " ")
                       && r.value.header[|httpMethod| + 1..] == path)
    ensures r.Ok? ==> StartsWith(r.value.url, baseUrl)
  {
    var decls :- ParseParameters(parameters, root);
    var d := Assemble(funcName, httpMethod, path, NameParams(decls), baseUrl);
    assert d.header[..|httpMethod| + 1] == Upper(httpMethod) + " ";
    assert d.url[..|baseUrl|] == baseUrl;
    Ok(d)
  }

  // ---------------------------------------------------------------------
  // Properties of build_function_code
  // ---------------------------------------------------------------------

  function DocNames(docs: seq<DocEntry>): seq<string> {
    seq(|docs|, i requires 0 <= i < |docs| => docs[i].py)
  }

  /** The build succeeds exactly when every parameter resolves and every
      resolved parameter is a mapping with a string name (or none). */
  lemma ParseParametersSucceeds(parameters: seq<Value>, root: Value)
    ensures ParseParameters(parameters, root).Ok? <==>
      forall i :: 0 <= i < |parameters| ==>
        && ResolveRef(parameters[i], root).Ok?
        && ReadParameter(ResolveRef(parameters[i], root).value).Ok?
    ensures ParseParameters(parameters, root).Ok? ==>
      forall i :: 0 <= i < |parameters| ==>
        Ok(ParseParameters(parameters, root).value[i]) == ReadParameter(ResolveRef(parameters[i], root).value)
  {
    var f := (p: Value) => ResolveRef(p, root);
    var resolved := MapAll(parameters, f);
    assert forall i :: 0 <= i < |parameters| ==> f(parameters[i]) == ResolveRef(parameters[i], root);
    if resolved.Ok? {
      assert forall i :: 0 <= i < |parameters| ==> ResolveRef(parameters[i], root).value == resolved.value[i];
    } else {
      var k :| 0 <= k < |parameters| && f(parameters[k]) == Err(resolved.error);
      assert !ResolveRef(parameters[k], root).Ok?;
    }
  }

  /** One docstring entry per parameter, in order, each carrying the
      parameter's `in` and `description` and its generated identifier:
      the sanitised name, made unique against the identifiers before it.
      No two identifiers coincide, and each has identifier characters only,
      no leading digit, is not reserved, and is possibly empty. */
  lemma DocsFollowParameters(funcName: string, httpMethod: string, path: string,
                             parameters: seq<Value>, baseUrl: string, root: Value,
                             decls: seq<Decl>, d: FunctionDescriptor)
    requires ParseParameters(parameters, root) == Ok(decls)
    requires BuildFunction(funcName, httpMethod, path, parameters, baseUrl, root) == Ok(d)
    ensures
      var names := DocNames(d.docs);
      && |d.docs| == |decls|
      && Distinct(names)
      && (forall i :: 0 <= i < |decls| ==>
            && d.docs[i].location == decls[i].location
            && d.docs[i].description == decls[i].description
            && IsSanitized(names[i])
            && names[i] == UniqueName(SanitizeParamName(decls[i].name), names[..i]))
  {
    var ps := NameParams(decls);
    BuiltFrom(funcName, httpMethod, path, parameters, baseUrl, root, decls, d);
    assert d.docs == Docs(ps);
    assert DocNames(d.docs) == Pys(ps);
  }

  /** A parameter at `loc` keeps its place relative to another at `loc`. */
  lemma ParamsAtOrder(ps: seq<Param>, loc: string, i: nat, j: nat)
    requires i < j < |ps|
    requires ps[i].location == Str(loc) && ps[j].location == Str(loc)
    ensures var f := ParamsAt(ps, loc);
      exists a, b :: 0 <= a < b < |f| && f[a] == ps[i] && f[b] == ps[j]
  {
    var front := ps[..j];
    var back := ps[j..];
    ParamsAtConcat(front, back, loc);
    assert ps == front + back;
    assert back[0] == ps[j];
    assert ParamsAt(back, loc)[0] == ps[j];
    assert front[i] == ps[i];
    ParamsAtKeeps(front, loc, i);
    var a :| 0 <= a < |ParamsAt(front, loc)| && ParamsAt(front, loc)[a] == ps[i];
    var all := ParamsAt(ps, loc);
    assert all[a] == ps[i];
    assert all[|ParamsAt(front, loc)|] == ps[j];
  }

  /** `e` is the signature entry of an identifier `py` at `location`:
      positional for `path`, `=None` for `query`. */
  predicate EntryFor(e: SigEntry, py: string, location: Value) {
    e.name == py && location == (if e.Required? then Str("path") else Str("query"))
  }

  predicate EntryOf(e: SigEntry, p: Param) {
    EntryFor(e, p.py, p.location)
  }

  /** The signature lists every path parameter and every query parameter. */
  lemma SignatureHas(ps: seq<Param>)
    ensures var sig := Signature(ps);
      && (forall i :: 0 <= i < |ps| && ps[i].location == Str("path") ==> Required(ps[i].py) in sig)
      && (forall i :: 0 <= i < |ps| && ps[i].location == Str("query") ==> Optional(ps[i].py) in sig)
  {
    var pp := PathParams(ps);
    var qp := QueryParams(ps);
    var sig := Signature(ps);
    forall i | 0 <= i < |ps| && ps[i].location == Str("path") ensures Required(ps[i].py) in sig {
      ParamsAtKeeps(ps, "path", i);
      var k :| 0 <= k < |pp| && pp[k] == ps[i];
      assert sig[k] == Required(ps[i].py);
    }
    forall i | 0 <= i < |ps| && ps[i].location == Str("query") ensures Optional(ps[i].py) in sig {
      ParamsAtKeeps(ps, "query", i);
      var k :| 0 <= k < |qp| && qp[k] == ps[i];
      assert sig[|pp| + k] == Optional(ps[i].py);
    }
  }

  /** Every signature entry belongs to a parameter of its kind, positional
      arguments first. */
  lemma SignatureEntries(ps: seq<Param>)
    ensures var sig := Signature(ps);
      && (forall k :: 0 <= k < |sig| ==> exists i :: 0 <= i < |ps| && EntryOf(sig[k], ps[i]))
      && (forall j, k :: 0 <= j < k < |sig| ==> sig[k].Required? ==> sig[j].Required?)
  {
    var pp := PathParams(ps);
    var qp := QueryParams(ps);
    var sig := Signature(ps);
    forall k | 0 <= k < |sig| ensures exists i :: 0 <= i < |ps| && EntryOf(sig[k], ps[i]) {
      if k < |pp| {
        ParamsAtFrom(ps, "path", k);
        var i :| 0 <= i < |ps| && ps[i] == pp[k];
        assert EntryOf(sig[k], ps[i]);
      } else {
        ParamsAtFrom(ps, "query", k - |pp|);
        var i :| 0 <= i < |ps| && ps[i] == qp[k - |pp|];
        assert EntryOf(sig[k], ps[i]);
      }
    }
  }

  /** The parts of a built descriptor, in terms of the named parameters. */
  lemma BuiltFrom(funcName: string, httpMethod: string, path: string,
                  parameters: seq<Value>, baseUrl: string, root: Value,
                  decls: seq<Decl>, d: FunctionDescriptor)
    requires ParseParameters(parameters, root) == Ok(decls)
    requires BuildFunction(funcName, httpMethod, path, parameters, baseUrl, root) == Ok(d)
    ensures var ps := NameParams(decls);
      && d.docs == Docs(ps)
      && d.signature == Signature(ps)
      && d.query == (if QueryItems(ps) == [] then None else Some(QueryItems(ps)))
      && d.url == baseUrl + SubstituteSequential(path, PathBindings(ps))
      && (forall i :: 0 <= i < |decls| ==> d.docs[i].py == ps[i].py && decls[i].location == ps[i].location)
  {
  }

  /** A parameter that is neither in the path nor in the query has no
      signature entry. */
  lemma SignatureOmits(ps: seq<Param>, i: nat)
    requires i < |ps| && Distinct(Pys(ps))
    requires ps[i].location !in [Str("path"), Str("query")]
    ensures forall k :: 0 <= k < |Signature(ps)| ==> Signature(ps)[k].name != ps[i].py
  {
    var sig := Signature(ps);
    SignatureEntries(ps);
    forall k | 0 <= k < |sig| ensures sig[k].name != ps[i].py {
      var j :| 0 <= j < |ps| && EntryOf(sig[k], ps[j]);
      assert j != i;
      assert Pys(ps)[i] != Pys(ps)[j];
    }
  }

  /** Every path parameter becomes a positional argument and every query
      parameter a `=None` argument. */
  lemma SignatureByLocation(funcName: string, httpMethod: string, path: string,
                            parameters: seq<Value>, baseUrl: string, root: Value,
                            decls: seq<Decl>, d: FunctionDescriptor)
    requires ParseParameters(parameters, root) == Ok(decls)
    requires BuildFunction(funcName, httpMethod, path, parameters, baseUrl, root) == Ok(d)
    ensures forall i :: 0 <= i < |decls| && decls[i].location == Str("path") ==>
      Required(d.docs[i].py) in d.signature
    ensures forall i :: 0 <= i < |decls| && decls[i].location == Str("query") ==>
      Optional(d.docs[i].py) in d.signature
  {
    var ps := NameParams(decls);
    BuiltFrom(funcName, httpMethod, path, parameters, baseUrl, root, decls, d);
    SignatureHas(ps);
  }

  /** A parameter whose `in` is neither `path` nor `query` is left out of
      the signature. */
  lemma SignatureLeavesOutOthers(funcName: string, httpMethod: string, path: string,
                            parameters: seq<Value>, baseUrl: string, root: Value,
                            decls: seq<Decl>, d: FunctionDescriptor)
    requires ParseParameters(parameters, root) == Ok(decls)
    requires BuildFunction(funcName, httpMethod, path, parameters, baseUrl, root) == Ok(d)
    ensures forall i :: 0 <= i < |decls| && decls[i].location !in [Str("path"), Str("query")] ==>
      forall k :: 0 <= k < |d.signature| ==> d.signature[k].name != d.docs[i].py
  {
    var ps := NameParams(decls);
    BuiltFrom(funcName, httpMethod, path, parameters, baseUrl, root, decls, d);
    forall i | 0 <= i < |decls| && decls[i].location !in [Str("path"), Str("query")]
      ensures forall k :: 0 <= k < |d.signature| ==> d.signature[k].name != d.docs[i].py
    {
      SignatureOmits(ps, i);
    }
  }

  /** Signature entries, restated for the docstring identifiers and the
      declared locations the named parameters carry. */
  lemma EntriesFor(ps: seq<Param>, docs: seq<DocEntry>, decls: seq<Decl>)
    requires |ps| == |docs| == |decls|
    requires forall i :: 0 <= i < |ps| ==> docs[i].py == ps[i].py && decls[i].location == ps[i].location
    ensures var sig := Signature(ps);
      forall k :: 0 <= k < |sig| ==> exists i :: 0 <= i < |decls| && EntryFor(sig[k], docs[i].py, decls[i].location)
  {
    var sig := Signature(ps);
    SignatureEntries(ps);
    forall k | 0 <= k < |sig|
      ensures exists i :: 0 <= i < |decls| && EntryFor(sig[k], docs[i].py, decls[i].location)
    {
      var i :| 0 <= i < |ps| && EntryOf(sig[k], ps[i]);
      assert EntryFor(sig[k], docs[i].py, decls[i].location);
    }
  }

  /** Each signature entry is a path parameter (positional) or a query
      parameter (`=None`). */
  lemma SignatureFromParameters(funcName: string, httpMethod: string, path: string,
                            parameters: seq<Value>, baseUrl: string, root: Value,
                            decls: seq<Decl>, d: FunctionDescriptor)
    requires ParseParameters(parameters, root) == Ok(decls)
    requires BuildFunction(funcName, httpMethod, path, parameters, baseUrl, root) == Ok(d)
    ensures forall k :: 0 <= k < |d.signature| ==>
      exists i :: 0 <= i < |decls| && EntryFor(d.signature[k], d.docs[i].py, decls[i].location)
  {
    BuiltFrom(funcName, httpMethod, path, parameters, baseUrl, root, decls, d);
    EntriesFor(NameParams(decls), d.docs, decls);
  }

  /** The positional arguments come before the `=None` ones. */
  lemma SignaturePositionalFirst(funcName: string, httpMethod: string, path: string,
                                 parameters: seq<Value>, baseUrl: string, root: Value,
                                 d: FunctionDescriptor)
    requires BuildFunction(funcName, httpMethod, path, parameters, baseUrl, root) == Ok(d)
    ensures forall j, k :: 0 <= j < k < |d.signature| ==>
      d.signature[k].Required? ==> d.signature[j].Required?
  {
    var decls := ParseParameters(parameters, root).value;
    var ps := NameParams(decls);
    BuiltFrom(funcName, httpMethod, path, parameters, baseUrl, root, decls, d);
    SignatureEntries(ps);
  }

  /** Within each kind, the signature lists parameters in their order. */
  lemma SignatureOrder(ps: seq<Param>, i: nat, j: nat)
    requires i < j < |ps|
    requires ps[i].location == ps[j].location
    requires ps[i].location == Str("path") || ps[i].location == Str("query")
    ensures var sig := Signature(ps);
      exists a, b :: 0 <= a < b < |sig| && sig[a].name == ps[i].py && sig[b].name == ps[j].py
  {
    var pp := PathParams(ps);
    var qp := QueryParams(ps);
    var sig := Signature(ps);
    if ps[i].location == Str("path") {
      ParamsAtOrder(ps, "path", i, j);
      var a, b :| 0 <= a < b < |pp| && pp[a] == ps[i] && pp[b] == ps[j];
      assert sig[a].name == ps[i].py && sig[b].name == ps[j].py;
    } else {
      ParamsAtOrder(ps, "query", i, j);
      var a, b :| 0 <= a < b < |qp| && qp[a] == ps[i] && qp[b] == ps[j];
      assert sig[|pp| + a].name == ps[i].py && sig[|pp| + b].name == ps[j].py;
    }
  }

  /** Within each kind, the signature follows the order of the parameters. */
  lemma SignatureKeepsOrder(funcName: string, httpMethod: string, path: string,
                            parameters: seq<Value>, baseUrl: string, root: Value,
                            decls: seq<Decl>, d: FunctionDescriptor, i: nat, j: nat)
    requires ParseParameters(parameters, root) == Ok(decls)
    requires BuildFunction(funcName, httpMethod, path, parameters, baseUrl, root) == Ok(d)
    requires i < j < |decls|
    requires decls[i].location == decls[j].location
    requires decls[i].location == Str("path") || decls[i].location == Str("query")
    ensures exists a, b :: 0 <= a < b < |d.signature|
                           && d.signature[a].name == d.docs[i].py && d.signature[b].name == d.docs[j].py
  {
    var ps := NameParams(decls);
    BuiltFrom(funcName, httpMethod, path, parameters, baseUrl, root, decls, d);
    SignatureOrder(ps, i, j);
  }

  /** `item` is the `params` entry of parameter `p`. */
  predicate ItemOf(item: QueryItem, p: Param) {
    p.location == Str("query") && item == QueryItem(p.original, p.py)
  }

  /** The query items are exactly the query parameters' entries. */
  lemma QueryItemsEntries(ps: seq<Param>)
    ensures var items := QueryItems(ps);
      && (forall i :: 0 <= i < |ps| && ps[i].location == Str("query") ==>
            QueryItem(ps[i].original, ps[i].py) in items)
      && (forall k :: 0 <= k < |items| ==> exists i :: 0 <= i < |ps| && ItemOf(items[k], ps[i]))
      && (items == [] <==> forall i :: 0 <= i < |ps| ==> ps[i].location != Str("query"))
  {
    var qp := QueryParams(ps);
    var items := QueryItems(ps);
    forall i | 0 <= i < |ps| && ps[i].location == Str("query")
      ensures QueryItem(ps[i].original, ps[i].py) in items
    {
      ParamsAtKeeps(ps, "query", i);
      var k :| 0 <= k < |qp| && qp[k] == ps[i];
      assert items[k] == QueryItem(ps[i].original, ps[i].py);
    }
    forall k | 0 <= k < |items| ensures exists i :: 0 <= i < |ps| && ItemOf(items[k], ps[i]) {
      ParamsAtFrom(ps, "query", k);
      var i :| 0 <= i < |ps| && ps[i] == qp[k];
      assert ItemOf(items[k], ps[i]);
    }
    if items != [] {
      ParamsAtFrom(ps, "query", 0);
    }
  }

  /** `params = None` exactly when no declaration is in the query; otherwise
      each query declaration contributes `'<its OpenAPI name>': <its
      documented identifier>`, and nothing else does. */
  predicate QueryMapped(decls: seq<Decl>, docs: seq<DocEntry>, query: Option<seq<QueryItem>>) {
    && |docs| == |decls|
    && (query.None? <==> forall i :: 0 <= i < |decls| ==> decls[i].location != Str("query"))
    && (query.Some? ==>
          && (forall i :: 0 <= i < |decls| && decls[i].location == Str("query") ==>
                QueryItem(decls[i].name, docs[i].py) in query.value)
          && (forall k :: 0 <= k < |query.value| ==>
                exists i :: 0 <= i < |decls| && ItemOf(query.value[k], Param(docs[i].py, decls[i].name, decls[i].location, decls[i].description))))
  }

  /** The generated `params` mapping is the one of the declarations. */
  lemma QueryMapping(funcName: string, httpMethod: string, path: string,
                     parameters: seq<Value>, baseUrl: string, root: Value,
                     decls: seq<Decl>, d: FunctionDescriptor)
    requires ParseParameters(parameters, root) == Ok(decls)
    requires BuildFunction(funcName, httpMethod, path, parameters, baseUrl, root) == Ok(d)
    ensures QueryMapped(decls, d.docs, d.query)
  {
    BuiltFrom(funcName, httpMethod, path, parameters, baseUrl, root, decls, d);
    QueryMappingOf(decls, d.docs, d.query);
  }

  lemma QueryMappingOf(decls: seq<Decl>, docs: seq<DocEntry>, query: Option<seq<QueryItem>>)
    requires docs == Docs(NameParams(decls))
    requires query == (if QueryItems(NameParams(decls)) == [] then None else Some(QueryItems(NameParams(decls))))
    ensures QueryMapped(decls, docs, query)
  {
    var ps := NameParams(decls);
    ParamsOfDecls(decls, ps, docs);
    QueryItemsEntries(ps);
    QueryMappingFrom(decls, ps, docs, QueryItems(ps), query);
  }

  /** Each named parameter carries its declaration and its documented name. */
  lemma ParamsOfDecls(decls: seq<Decl>, ps: seq<Param>, docs: seq<DocEntry>)
    requires ps == NameParams(decls) && docs == Docs(ps)
    ensures |ps| == |decls| && |docs| == |decls|
    ensures forall i :: 0 <= i < |decls| ==>
      ps[i] == Param(docs[i].py, decls[i].name, decls[i].location, decls[i].description)
  {
  }

  lemma QueryMappingFrom(decls: seq<Decl>, ps: seq<Param>, docs: seq<DocEntry>,
                         items: seq<QueryItem>, query: Option<seq<QueryItem>>)
    requires |ps| == |decls| && |docs| == |decls|
    requires forall i :: 0 <= i < |decls| ==>
      ps[i] == Param(docs[i].py, decls[i].name, decls[i].location, decls[i].description)
    requires forall i :: 0 <= i < |ps| && ps[i].location == Str("query") ==>
      QueryItem(ps[i].original, ps[i].py) in items
    requires forall k :: 0 <= k < |items| ==> exists i :: 0 <= i < |ps| && ItemOf(items[k], ps[i])
    requires items == [] <==> forall i :: 0 <= i < |ps| ==> ps[i].location != Str("query")
    requires query == if items == [] then None else Some(items)
    ensures QueryMapped(decls, docs, query)
  {
    forall k | 0 <= k < |items|
      ensures exists i :: 0 <= i < |decls| && ItemOf(items[k], Param(docs[i].py, decls[i].name, decls[i].location, decls[i].description))
    {
      var i :| 0 <= i < |ps| && ItemOf(items[k], ps[i]);
      assert ps[i] == Param(docs[i].py, decls[i].name, decls[i].location, decls[i].description);
    }
  }

  /** The number of declarations whose `in` is the string `loc`. */
  function CountAt(decls: seq<Decl>, loc: string): nat
    decreases |decls|
  {
    if decls == [] then 0
    else (if decls[0].location == Str(loc) then 1 else 0) + CountAt(decls[1..], loc)
  }

  lemma {:induction false} ParamsAtCount(ps: seq<Param>, decls: seq<Decl>, loc: string)
    requires |ps| == |decls|
    requires forall i :: 0 <= i < |ps| ==> ps[i].location == decls[i].location
    ensures |ParamsAt(ps, loc)| == CountAt(decls, loc)
    decreases |ps|
  {
    if ps != [] {
      ParamsAtCount(ps[1..], decls[1..], loc);
    }
  }

  /** `params` has one entry per query declaration. */
  lemma QueryMappingCount(funcName: string, httpMethod: string, path: string,
                          parameters: seq<Value>, baseUrl: string, root: Value,
                          decls: seq<Decl>, d: FunctionDescriptor)
    requires ParseParameters(parameters, root) == Ok(decls)
    requires BuildFunction(funcName, httpMethod, path, parameters, baseUrl, root) == Ok(d)
    ensures d.query.Some? ==> |d.query.value| == CountAt(decls, "query")
  {
    var ps := NameParams(decls);
    BuiltFrom(funcName, httpMethod, path, parameters, baseUrl, root, decls, d);
    ParamsAtCount(ps, decls, "query");
  }

  /** The entries of `params` follow the order of the query declarations. */
  lemma QueryMappingInOrder(funcName: string, httpMethod: string, path: string,
                            parameters: seq<Value>, baseUrl: string, root: Value,
                            decls: seq<Decl>, d: FunctionDescriptor)
    requires ParseParameters(parameters, root) == Ok(decls)
    requires BuildFunction(funcName, httpMethod, path, parameters, baseUrl, root) == Ok(d)
    ensures forall i, j :: 0 <= i < j < |decls| && decls[i].location == Str("query") && decls[j].location == Str("query") ==>
      && d.query.Some?
      && exists a, b :: 0 <= a < b < |d.query.value|
                        && d.query.value[a] == QueryItem(decls[i].name, d.docs[i].py)
                        && d.query.value[b] == QueryItem(decls[j].name, d.docs[j].py)
  {
    var ps := NameParams(decls);
    BuiltFrom(funcName, httpMethod, path, parameters, baseUrl, root, decls, d);
    forall i, j | 0 <= i < j < |decls| && decls[i].location == Str("query") && decls[j].location == Str("query")
      ensures && d.query.Some?
              && exists a, b :: 0 <= a < b < |d.query.value|
                                && d.query.value[a] == QueryItem(decls[i].name, d.docs[i].py)
                                && d.query.value[b] == QueryItem(decls[j].name, d.docs[j].py)
    {
      QueryItemsOrder(ps, i, j);
      assert ps[i].original == decls[i].name && ps[j].original == decls[j].name;
    }
  }

  // Two query parameters give two `params` entries in their own order.
  lemma QueryItemsOrder(ps: seq<Param>, i: nat, j: nat)
    requires i < j < |ps|
    requires ps[i].location == Str("query") && ps[j].location == Str("query")
    ensures var items := QueryItems(ps);
      exists a, b :: 0 <= a < b < |items|
                     && items[a] == QueryItem(ps[i].original, ps[i].py)
                     && items[b] == QueryItem(ps[j].original, ps[j].py)
  {
    var qp := QueryParams(ps);
    var items := QueryItems(ps);
    ParamsAtOrder(ps, "query", i, j);
    var a, b :| 0 <= a < b < |qp| && qp[a] == ps[i] && qp[b] == ps[j];
    assert items[a] == QueryItem(ps[i].original, ps[i].py);
    assert items[b] == QueryItem(ps[j].original, ps[j].py);
  }

  /** The path bindings are the path parameters, each binding its OpenAPI
      name to its generated identifier. */
  lemma PathBindingsByLocation(ps: seq<Param>)
    ensures var bs := PathBindings(ps);
      && (forall i :: 0 <= i < |ps| && ps[i].location == Str("path") ==>
            PathBinding(ps[i].py, ps[i].original) in bs)
      && (forall k :: 0 <= k < |bs| ==>
            exists i :: 0 <= i < |ps| && ps[i].location == Str("path") && bs[k] == PathBinding(ps[i].py, ps[i].original))
  {
    var pp := PathParams(ps);
    var bs := PathBindings(ps);
    forall i | 0 <= i < |ps| && ps[i].location == Str("path")
      ensures PathBinding(ps[i].py, ps[i].original) in bs
    {
      ParamsAtKeeps(ps, "path", i);
      var k :| 0 <= k < |pp| && pp[k] == ps[i];
      assert bs[k] == PathBinding(ps[i].py, ps[i].original);
    }
    forall k | 0 <= k < |bs|
      ensures exists i :: 0 <= i < |ps| && ps[i].location == Str("path") && bs[k] == PathBinding(ps[i].py, ps[i].original)
    {
      ParamsAtFrom(ps, "path", k);
      var i :| 0 <= i < |ps| && ps[i] == pp[k];
      assert bs[k] == PathBinding(ps[i].py, ps[i].original);
    }
  }

  lemma IdentBraceFree(s: string)
    requires AllIdentChars(s)
    ensures BraceFree(s)
  {
  }

  /** Every generated identifier a path binding carries is brace-free. */
  lemma BindingsBraceFree(ps: seq<Param>)
    requires forall i :: 0 <= i < |ps| ==> IsSanitized(ps[i].py)
    ensures forall k :: 0 <= k < |PathBindings(ps)| ==> BraceFree(PathBindings(ps)[k].py)
  {
    var bs := PathBindings(ps);
    PathBindingsByLocation(ps);
    forall k | 0 <= k < |bs| ensures BraceFree(bs[k].py) {
      var i :| 0 <= i < |ps| && ps[i].location == Str("path") && bs[k] == PathBinding(ps[i].py, ps[i].original);
      IdentBraceFree(ps[i].py);
    }
  }

  /** For a path whose placeholders name path parameters, the URL is the base
      followed by the path with each `{original}` rewritten to the `{py}` of
      its parameter, and the rest of the path unchanged, provided no rewrite
      chain exists: path parameters have distinct OpenAPI names and no
      generated identifier is the OpenAPI name of a later path parameter. */
  lemma UrlRewritesPlaceholders(funcName: string, httpMethod: string, path: string,
                                parameters: seq<Value>, baseUrl: string, root: Value,
                                decls: seq<Decl>, d: FunctionDescriptor, pieces: seq<Piece>)
    requires ParseParameters(parameters, root) == Ok(decls)
    requires BuildFunction(funcName, httpMethod, path, parameters, baseUrl, root) == Ok(d)
    requires path == RenderOriginal(pieces)
    requires WellFormedTemplate(pieces, PathBindings(NameParams(decls)))
    requires NoRewriteChain(PathBindings(NameParams(decls)))
    ensures d.url == baseUrl + RenderGenerated(pieces, PathBindings(NameParams(decls)))
    ensures d.url == baseUrl + SubstituteOnce(path, PathBindings(NameParams(decls)))
  {
    var ps := NameParams(decls);
    BindingsBraceFree(ps);
    BuiltFrom(funcName, httpMethod, path, parameters, baseUrl, root, decls, d);
    SequentialAgreesWithOnce(pieces, PathBindings(ps));
    SequentialRewritesEachPlaceholder(pieces, PathBindings(ps));
  }

  // ---------------------------------------------------------------------
  // Worked cases
  // ---------------------------------------------------------------------

  function PathParam(name: string): Value {
    Obj([("name", Str(name)), ("in", Str("path"))])
  }

  function QueryParam(name: string): Value {
    Obj([("name", Str(name)), ("in", Str("query"))])
  }

  /** A parameter object without `$ref` is read as it stands. */
  lemma ReadPlain(name: string, loc: string)
    ensures var node := Obj([("name", Str(name)), ("in", Str(loc))]);
      && ResolveRef(node, Obj([])) == Ok(node)
      && ReadParameter(node) == Ok(Decl(name, Str(loc), Str("")))
  {
    var fields := [("name", Str(name)), ("in", Str(loc))];
    assert !HasKey(fields, "$ref") by {
      assert fields[0].0 != "$ref" && fields[1].0 != "$ref";
    }
    assert !HasKey(fields, "description") by {
      assert fields[0].0 != "description" && fields[1].0 != "description";
    }
    assert Get(fields, "name") == Some(Str(name));
    assert Get(fields, "in") == Some(Str(loc)) by {
      assert fields[0].0 != "in";
    }
  }

  /** Two parameters read in order. */
  lemma ParseTwo(a: Value, b: Value, da: Decl, db: Decl)
    requires ResolveRef(a, Obj([])) == Ok(a) && ReadParameter(a) == Ok(da)
    requires ResolveRef(b, Obj([])) == Ok(b) && ReadParameter(b) == Ok(db)
    ensures ParseParameters([a, b], Obj([])) == Ok([da, db])
  {
    var root := Obj([]);
    var resolved := MapAll([a, b], p => ResolveRef(p, root));
    assert resolved.Ok? && resolved.value == [a, b];
    var read := MapAll([a, b], ReadParameter);
    assert read.Ok? && read.value == [da, db];
  }

  /** One parameter read. */
  lemma ParseOne(a: Value, da: Decl)
    requires ResolveRef(a, Obj([])) == Ok(a) && ReadParameter(a) == Ok(da)
    ensures ParseParameters([a], Obj([])) == Ok([da])
  {
    var root := Obj([]);
    var resolved := MapAll([a], p => ResolveRef(p, root));
    assert resolved.Ok? && resolved.value == [a];
    var read := MapAll([a], ReadParameter);
    assert read.Ok? && read.value == [da];
  }

  /** A lone parameter whose name is already sanitised keeps it. */
  lemma NameOne(da: Decl)
    requires IsSanitized(da.name)
    ensures NameParams([da]) == [Param(da.name, da.name, da.location, da.description)]
  {
    var ps := NameParams([da]);
    assert Pys(ps)[..0] == [];
    assert ps[0].py == da.name;
  }

  lemma PartsOnePath(p0: Param)
    requires p0.location == Str("path")
    ensures Signature([p0]) == [Required(p0.py)]
    ensures PathBindings([p0]) == [PathBinding(p0.py, p0.original)]
  {
    assert [p0][1..] == [];
    assert ParamsAt([p0], "path") == [p0];
    assert ParamsAt([p0], "query") == [];
  }

  /** One path parameter whose name is already sanitised: one
      positional argument of that name, and one rewrite of the path. */
  lemma OnePath(funcName: string, httpMethod: string, path: string, baseUrl: string, n: string)
    requires IsSanitized(n)
    ensures var r := BuildFunction(funcName, httpMethod, path, [PathParam(n)], baseUrl, Obj([]));
      && r.Ok?
      && r.value.signature == [Required(n)]
      && r.value.url == baseUrl + SubstituteSequential(path, [PathBinding(n, n)])
  {
    var a := PathParam(n);
    var root := Obj([]);
    var da := Decl(n, Str("path"), Str(""));
    ReadPlain(n, "path");
    ParseOne(a, da);
    NameOne(da);
    var p0 := Param(n, n, Str("path"), Str(""));
    PartsOnePath(p0);
    var d := BuildFunction(funcName, httpMethod, path, [a], baseUrl, root).value;
    BuiltFrom(funcName, httpMethod, path, [a], baseUrl, root, [da], d);
  }

  /** Two parameters whose sanitised names differ keep them. */
  lemma NameTwoDistinct(da: Decl, db: Decl)
    requires SanitizeParamName(da.name) != SanitizeParamName(db.name)
    ensures NameParams([da, db]) ==
      [Param(SanitizeParamName(da.name), da.name, da.location, da.description),
       Param(SanitizeParamName(db.name), db.name, db.location, db.description)]
  {
    var ps := NameParams([da, db]);
    assert ps[0].py == SanitizeParamName(da.name);
    assert Pys(ps)[..1] == [ps[0].py];
  }

  /** Two parameters with the same sanitised name: the second gets `_2`. */
  lemma NameTwoSame(da: Decl, db: Decl)
    requires SanitizeParamName(da.name) == SanitizeParamName(db.name)
    ensures var s := SanitizeParamName(da.name);
      NameParams([da, db]) ==
        [Param(s, da.name, da.location, da.description),
         Param(s + "_2", db.name, db.location, db.description)]
  {
    var s := SanitizeParamName(da.name);
    var ps := NameParams([da, db]);
    assert Pys(ps)[..0] == [];
    assert ps[0].py == s;
    assert Pys(ps)[..1] == [s];
    SecondUse(s);
    assert ps[1].py == s + "_2";
    assert ps == [ps[0], ps[1]];
  }

  /** Filtering two parameters. */
  lemma ParamsAtTwo(p: Param, q: Param, loc: string)
    ensures ParamsAt([p, q], loc) ==
      (if p.location == Str(loc) then [p] else []) + (if q.location == Str(loc) then [q] else [])
  {
    assert [p, q][1..] == [q];
    assert [q][1..] == [];
  }

  /** Reading, naming and classifying `[a, b]` when both are plain objects. */
  lemma BuildTwo(funcName: string, httpMethod: string, path: string, baseUrl: string,
                 a: Value, b: Value, da: Decl, db: Decl, p0: Param, p1: Param)
    requires ResolveRef(a, Obj([])) == Ok(a) && ReadParameter(a) == Ok(da)
    requires ResolveRef(b, Obj([])) == Ok(b) && ReadParameter(b) == Ok(db)
    requires NameParams([da, db]) == [p0, p1]
    ensures var r := BuildFunction(funcName, httpMethod, path, [a, b], baseUrl, Obj([]));
      && r.Ok?
      && r.value.signature == Signature([p0, p1])
      && r.value.url == baseUrl + SubstituteSequential(path, PathBindings([p0, p1]))
      && r.value.query == (if QueryItems([p0, p1]) == [] then None else Some(QueryItems([p0, p1])))
      && PathBindings(NameParams(ParseParameters([a, b], Obj([])).value)) == PathBindings([p0, p1])
  {
    ParseTwo(a, b, da, db);
    var d := BuildFunction(funcName, httpMethod, path, [a, b], baseUrl, Obj([])).value;
    BuiltFrom(funcName, httpMethod, path, [a, b], baseUrl, Obj([]), [da, db], d);
  }

  lemma PartsPathQuery(p0: Param, p1: Param)
    requires p0.location == Str("path") && p1.location == Str("query")
    ensures Signature([p0, p1]) == [Required(p0.py), Optional(p1.py)]
    ensures QueryItems([p0, p1]) == [QueryItem(p1.original, p1.py)]
    ensures PathBindings([p0, p1]) == [PathBinding(p0.py, p0.original)]
  {
    ParamsAtTwo(p0, p1, "path");
    ParamsAtTwo(p0, p1, "query");
  }

  lemma PartsTwoPaths(p0: Param, p1: Param)
    requires p0.location == Str("path") && p1.location == Str("path")
    ensures Signature([p0, p1]) == [Required(p0.py), Required(p1.py)]
    ensures QueryItems([p0, p1]) == []
    ensures PathBindings([p0, p1]) == [PathBinding(p0.py, p0.original), PathBinding(p1.py, p1.original)]
  {
    ParamsAtTwo(p0, p1, "path");
    ParamsAtTwo(p0, p1, "query");
  }

  /** One path parameter and one query parameter, both already sanitised
      and distinct: the path one is positional, the query one `=None`, the URL
      is the base and the path unchanged, and `params` maps the query name to
      its argument. */
  lemma PathAndQuery(funcName: string, httpMethod: string, path: string, baseUrl: string,
                     pn: string, qn: string)
    requires IsSanitized(pn) && IsSanitized(qn) && pn != qn
    ensures var r := BuildFunction(funcName, httpMethod, path, [PathParam(pn), QueryParam(qn)], baseUrl, Obj([]));
      && r.Ok?
      && r.value.signature == [Required(pn), Optional(qn)]
      && r.value.url == baseUrl + path
      && r.value.query == Some([QueryItem(qn, qn)])
  {
    ReadPlain(pn, "path");
    ReadPlain(qn, "query");
    var da := Decl(pn, Str("path"), Str(""));
    var db := Decl(qn, Str("query"), Str(""));
    NameTwoDistinct(da, db);
    var p0 := Param(pn, pn, Str("path"), Str(""));
    var p1 := Param(qn, qn, Str("query"), Str(""));
    PartsPathQuery(p0, p1);
    var b := PathBinding(pn, pn);
    SubstituteOnceSingle(path, b);
    ReplaceIdentity(path, Placeholder(pn));
    BuildTwo(funcName, httpMethod, path, baseUrl, PathParam(pn), QueryParam(qn), da, db, p0, p1);
  }

  /** Two path parameters that sanitise to the same `s`: the first is `s`,
      the second `s_2`, and the bindings say so. */
  lemma TwoPathsColliding(funcName: string, httpMethod: string, path: string, baseUrl: string,
                          n1: string, n2: string)
    requires SanitizeParamName(n1) == SanitizeParamName(n2)
    ensures var s := SanitizeParamName(n1);
      var parameters := [PathParam(n1), PathParam(n2)];
      var r := BuildFunction(funcName, httpMethod, path, parameters, baseUrl, Obj([]));
      var bs := [PathBinding(s, n1), PathBinding(s + "_2", n2)];
      && r.Ok?
      && r.value.signature == [Required(s), Required(s + "_2")]
      && r.value.url == baseUrl + SubstituteSequential(path, bs)
      && PathBindings(NameParams(ParseParameters(parameters, Obj([])).value)) == bs
  {
    var s := SanitizeParamName(n1);
    ReadPlain(n1, "path");
    ReadPlain(n2, "path");
    var da := Decl(n1, Str("path"), Str(""));
    var db := Decl(n2, Str("path"), Str(""));
    NameTwoSame(da, db);
    var p0 := Param(s, n1, Str("path"), Str(""));
    var p1 := Param(s + "_2", n2, Str("path"), Str(""));
    PartsTwoPaths(p0, p1);
    BuildTwo(funcName, httpMethod, path, baseUrl, PathParam(n1), PathParam(n2), da, db, p0, p1);
  }

  lemma CorpusNamesSanitized(a: string, b: string)
    requires a == "corpusId" && b == "usesubcorp"
    ensures IsSanitized(a) && IsSanitized(b)
  {
    NotKeyword(a, 6);
    LongNotKeyword(b);
  }

  lemma BracketNamesCollide(a: string, b: string)
    requires a == "a[b]" && b == "a_b"
    ensures SanitizeParamName(a) == b && SanitizeParamName(b) == b
  {
    assert FixBrackets(a[3..]) == [] by { assert a[3..][1..] == []; }
    assert FixBrackets(a[2..]) == "b" by { assert a[2..][1..] == a[3..]; }
    assert FixBrackets(a[1..]) == "_b" by { assert a[1..][1..] == a[2..]; }
    assert FixBrackets(a) == b;
    NotKeyword(b, 1);
    SanitizeBracketed(a);
  }

  /** The path `/corpora/{corpusId}` with a path parameter `corpusId` and a
      query parameter `usesubcorp`: `corpusId` is positional,
      `usesubcorp=None` a keyword argument, the URL keeps the placeholder
      and `params` maps `usesubcorp` to its argument. */
  lemma CorpusScenario(funcName: string, baseUrl: string)
    ensures var r := BuildFunction(funcName, "get", "/corpora/{corpusId}",
                                   [PathParam("corpusId"), QueryParam("usesubcorp")], baseUrl, Obj([]));
      && r.Ok?
      && r.value.signature == [Required("corpusId"), Optional("usesubcorp")]
      && r.value.url == baseUrl + "/corpora/{corpusId}"
      && r.value.query == Some([QueryItem("usesubcorp", "usesubcorp")])
  {
    CorpusNamesSanitized("corpusId", "usesubcorp");
    PathAndQuery(funcName, "get", "/corpora/{corpusId}", baseUrl, "corpusId", "usesubcorp");
  }

  /** The case behind the URL finding: path parameters `a[b]` and `a_b` are
      named `a_b` and `a_b_2`; the sequential replacement of the source turns
      `/{a[b]}/{a_b}` into `/{a_b_2}/{a_b_2}`, while the single pass would
      give `/{a_b}/{a_b_2}`. */
  lemma BracketCollisionScenario(funcName: string, baseUrl: string, n1: string, n2: string, path: string)
    requires n1 == "a[b]" && n2 == "a_b" && path == "/{a[b]}/{a_b}"
    ensures var parameters := [PathParam(n1), PathParam(n2)];
      var r := BuildFunction(funcName, "get", path, parameters, baseUrl, Obj([]));
      && ParseParameters(parameters, Obj([])).Ok?
      && var bs := PathBindings(NameParams(ParseParameters(parameters, Obj([])).value));
      && r.Ok?
      && r.value.signature == [Required("a_b"), Required("a_b_2")]
      && r.value.url == baseUrl + "/{a_b_2}/{a_b_2}"
      && baseUrl + SubstituteOnce(path, bs) == baseUrl + "/{a_b}/{a_b_2}"
  {
    var parameters := [PathParam(n1), PathParam(n2)];
    BracketNamesCollide(n1, n2);
    assert "a_b" + "_2" == "a_b_2";
    TwoPathsColliding(funcName, "get", path, baseUrl, n1, n2);
    var bs := PathBindings(NameParams(ParseParameters(parameters, Obj([])).value));
    CollisionRewrites(path, bs);
  }
}
