/** The pure part of `generate_api_client_from_openapi`
    (client_generator.py): choose the base URL, walk every path and every
    HTTP verb of the parsed document in order, concatenate path-level and
    operation-level parameters, and build one function per operation.
    Reading the YAML file and writing the output file are not part of this
    model; any exception aborts the whole run, so the result is either every
    function or the first error. */
module Driver {
  import opened Results
  import opened Text
  import opened Json
  import opened GenErrors
  import opened Naming
  import opened FunctionBuilder
  import opened Refs
  import opened UrlTemplate
  import opened ParamMerge

  const DefaultBaseUrl: string := "https://api.sketchengine.eu"

  /** The verbs an operation key must spell, compared after `lower()`. */
  const Verbs: seq<string> := ["get", "post", "put", "patch", "delete", "head", "options"]

  predicate IsOperationKey(key: string) {
    Lower(key) in Verbs
  }

  /** The generated module: its base URL and its functions in output order. */
  datatype Client = Client(baseUrl: string, functions: seq<FunctionDescriptor>)

  // ---------------------------------------------------------------------
  // Base URL
  // ---------------------------------------------------------------------

  /** `'url' in servers[0]` followed by `servers[0]['url'].rstrip('/')`,
      for each shape `servers[0]` can have. */
  function FirstServerUrl(server: Value): (r: Result<string, GenError>)
    ensures server.Obj? && !HasKey(server.fields, "url") ==> r == Ok(DefaultBaseUrl)
    ensures server.Obj? && UniqueKeys(server.fields) ==>
      forall i :: 0 <= i < |server.fields| && server.fields[i].0 == "url" ==>
        r == (if server.fields[i].1.Str? then Ok(RStrip(server.fields[i].1.s, '/')) else Err(UrlNotAString))
    ensures server.Str? ==> r == (if Contains(server.s, "url") then Err(NotSubscriptable("url")) else Ok(DefaultBaseUrl))
    ensures server.Arr? ==> r == (if Str("url") in server.items then Err(NotSubscriptable("url")) else Ok(DefaultBaseUrl))
    ensures server.Null? || server.Bool? || server.Num? ==> r == Err(NotAContainer)
  {
    match server
    case Obj(fields) =>
      GetUnique(fields, "url");
      if !HasKey(fields, "url") then Ok(DefaultBaseUrl)
      else
        (match Get(fields, "url").value
         case Str(u) => Ok(RStrip(u, '/'))
         case _ => Err(UrlNotAString))
    case Str(t) => if Contains(t, "url") then Err(NotSubscriptable("url")) else Ok(DefaultBaseUrl)
    case Arr(items) => if Str("url") in items then Err(NotSubscriptable("url")) else Ok(DefaultBaseUrl)
    case _ => Err(NotAContainer)
  }

  /** `servers = spec.get("servers", [])`; only a non-empty list is looked
      into, anything else gives the default. */
  function BaseUrl(fields: seq<(string, Value)>): (r: Result<string, GenError>)
    ensures !HasKey(fields, "servers") ==> r == Ok(DefaultBaseUrl)
    ensures UniqueKeys(fields) ==> forall i :: 0 <= i < |fields| && fields[i].0 == "servers" ==>
      r == (if fields[i].1.Arr? && fields[i].1.items != [] then FirstServerUrl(fields[i].1.items[0])
            else Ok(DefaultBaseUrl))
  {
    GetUnique(fields, "servers");
    match GetOr(fields, "servers", Arr([]))
    case Arr(servers) => if servers == [] then Ok(DefaultBaseUrl) else FirstServerUrl(servers[0])
    case _ => Ok(DefaultBaseUrl)
  }

  /** Whatever the document says, a base URL it yields never ends in `/`. */
  lemma BaseUrlHasNoTrailingSlash(fields: seq<(string, Value)>)
    ensures BaseUrl(fields).Ok? ==> var u := BaseUrl(fields).value; u == [] || u[|u| - 1] != '/'
  {
    var r := BaseUrl(fields);
    if r.Ok? && r.value != DefaultBaseUrl {
      var servers := GetOr(fields, "servers", Arr([]));
      assert servers.Arr? && servers.items != [];
      var s0 := servers.items[0];
      assert s0.Obj?;
    }
  }

  // ---------------------------------------------------------------------
  // Operations
  // ---------------------------------------------------------------------

  /** `path_params + op_params`: two lists concatenate; two strings
      concatenate into a string whose characters are then iterated as
      one-character strings; anything else is a `TypeError`. */
  function ParameterList(pathLevel: Value, opLevel: Value): (r: Result<seq<Value>, GenError>)
    ensures pathLevel.Arr? && opLevel.Arr? ==> r == Ok(pathLevel.items + opLevel.items)
    ensures !(pathLevel.Arr? && opLevel.Arr?) && !(pathLevel.Str? && opLevel.Str?) ==> r == Err(BadParameterList)
    ensures pathLevel.Str? && opLevel.Str? ==> r.Ok? && |r.value| == |pathLevel.s + opLevel.s|
  {
    match (pathLevel, opLevel)
    case (Arr(a), Arr(b)) => Ok(a + b)
    case (Str(x), Str(y)) =>
      var s := x + y;
      Ok(seq(|s|, i requires 0 <= i < |s| => Str([s[i]])))
    case _ => Err(BadParameterList)
  }

  /** The function for one operation. */
  function BuildOperation(path: string, pathItem: seq<(string, Value)>, httpMethod: string,
                          operation: Value, baseUrl: string, root: Value)
    : (r: Result<FunctionDescriptor, GenError>)
    ensures !operation.Obj? ==> r == Err(NotAMapping("operation"))
    ensures operation.Obj?
            && ParameterList(GetOr(pathItem, "parameters", Arr([])), GetOr(operation.fields, "parameters", Arr([]))).Err?
            ==> r == Err(BadParameterList)
    ensures r.Ok? ==> r.value.name == FunctionName(httpMethod, path) && r.value.verb == Lower(httpMethod)
    ensures r.Ok? ==> StartsWith(r.value.url, baseUrl)
  {
    match operation
    case Obj(opFields) =>
      var all :- ParameterList(GetOr(pathItem, "parameters", Arr([])), GetOr(opFields, "parameters", Arr([])));
      BuildFunction(FunctionName(httpMethod, path), httpMethod, path, all, baseUrl, root)
    case _ => Err(NotAMapping("operation"))
  }

  /** `e` documents the parameter object `p`: `p` resolves and reads, and
      `e` carries its `in` and its `description`. */
  predicate ReadsAs(e: DocEntry, p: Value, root: Value) {
    && ResolveRef(p, root).Ok?
    && ReadParameter(ResolveRef(p, root).value).Ok?
    && e.location == ReadParameter(ResolveRef(p, root).value).value.location
    && e.description == ReadParameter(ResolveRef(p, root).value).value.description
  }

  // Unfolds one operation into the function built from its combined list.
  lemma OperationUnfolds(path: string, pathItem: seq<(string, Value)>, httpMethod: string,
                         opFields: seq<(string, Value)>, baseUrl: string, root: Value,
                         a: seq<Value>, b: seq<Value>)
    requires GetOr(pathItem, "parameters", Arr([])) == Arr(a)
    requires GetOr(opFields, "parameters", Arr([])) == Arr(b)
    ensures BuildOperation(path, pathItem, httpMethod, Obj(opFields), baseUrl, root)
         == BuildFunction(FunctionName(httpMethod, path), httpMethod, path, a + b, baseUrl, root)
  {
  }

  /** Path-level parameters come first, then the operation's own; both
      lists are taken as written, without merging a parameter the operation
      redeclares: one doc entry per parameter of either list, the path-level
      ones first. */
  lemma OperationParameters(path: string, pathItem: seq<(string, Value)>, httpMethod: string,
                            opFields: seq<(string, Value)>, baseUrl: string, root: Value,
                            a: seq<Value>, b: seq<Value>, d: FunctionDescriptor)
    requires GetOr(pathItem, "parameters", Arr([])) == Arr(a)
    requires GetOr(opFields, "parameters", Arr([])) == Arr(b)
    requires BuildOperation(path, pathItem, httpMethod, Obj(opFields), baseUrl, root) == Ok(d)
    ensures |d.docs| == |a| + |b|
    ensures forall i :: 0 <= i < |a| ==> ReadsAs(d.docs[i], a[i], root)
    ensures forall i :: 0 <= i < |b| ==> ReadsAs(d.docs[|a| + i], b[i], root)
  {
    var all := a + b;
    var name := FunctionName(httpMethod, path);
    OperationUnfolds(path, pathItem, httpMethod, opFields, baseUrl, root, a, b);
    assert BuildFunction(name, httpMethod, path, all, baseUrl, root) == Ok(d);
    ParseParametersSucceeds(all, root);
    var decls := ParseParameters(all, root).value;
    DocsFollowParameters(name, httpMethod, path, all, baseUrl, root, decls, d);
    forall i | 0 <= i < |all| ensures ReadsAs(d.docs[i], all[i], root) {
      assert Ok(decls[i]) == ReadParameter(ResolveRef(all[i], root).value);
    }
    forall i | 0 <= i < |a| ensures ReadsAs(d.docs[i], a[i], root) {
      assert all[i] == a[i];
    }
    forall i | 0 <= i < |b| ensures ReadsAs(d.docs[|a| + i], b[i], root) {
      assert all[|a| + i] == b[i];
    }
  }

  /** A path parameter declared again by the operation appears twice in the
      generated function: once as `s`, once as `s_2`, and both bindings take
      part in the URL's rewriting. */
  lemma RedeclaredPathParameter(path: string, httpMethod: string, baseUrl: string, n: string,
                                level: seq<(string, Value)>)
    requires level == [("parameters", Arr([PathParam(n)]))]
    ensures var r := BuildOperation(path, level, httpMethod, Obj(level), baseUrl, Obj([]));
      var s := SanitizeParamName(n);
      && r.Ok?
      && r.value.signature == [Required(s), Required(s + "_2")]
      && r.value.url == baseUrl + SubstituteSequential(path, [PathBinding(s, n), PathBinding(s + "_2", n)])
  {
    var name := FunctionName(httpMethod, path);
    assert GetOr(level, "parameters", Arr([])) == Arr([PathParam(n)]);
    OperationUnfolds(path, level, httpMethod, level, baseUrl, Obj([]), [PathParam(n)], [PathParam(n)]);
    assert [PathParam(n)] + [PathParam(n)] == [PathParam(n), PathParam(n)];
    TwoPathsColliding(name, httpMethod, path, baseUrl, n, n);
  }

  /** For a redeclared path parameter `n` whose name is already
      sanitised, the placeholder `{n}` ends up naming the second
      declaration's argument `n_2`: the first replacement rewrites `{n}` to
      itself, the second to `{n_2}`. */
  lemma RedeclaredPathUrl(httpMethod: string, baseUrl: string, n: string, level: seq<(string, Value)>)
    requires IsSanitized(n)
    requires level == [("parameters", Arr([PathParam(n)]))]
    ensures var r := BuildOperation(Placeholder(n), level, httpMethod, Obj(level), baseUrl, Obj([]));
      && r.Ok?
      && r.value.signature == [Required(n), Required(n + "_2")]
      && r.value.url == baseUrl + Placeholder(n + "_2")
  {
    RedeclaredPathParameter(Placeholder(n), httpMethod, baseUrl, n, level);
    IdentBraceFree(n);
    RedeclaredRewrite(n);
  }

  /** The entries of a path item that are operations, in order; the others
      (`parameters`, `summary`, vendor keys) are skipped. */
  function SelectedOps(item: seq<(string, Value)>): (r: seq<(string, Value)>)
    ensures |r| <= |item|
    ensures forall k :: 0 <= k < |r| ==> IsOperationKey(r[k].0)
  {
    if item == [] then []
    else if IsOperationKey(item[0].0) then [item[0]] + SelectedOps(item[1..])
    else SelectedOps(item[1..])
  }

  /** The merge key of a declaration: the `(in, name)` of the node it
      resolves to, or `NoKey` when it does not resolve. */
  function KeyIn(root: Value): Value -> Key {
    p => if ResolveRef(p, root).Ok? then KeyOf(ResolveRef(p, root).value) else NoKey
  }

  /** The operation with its parameters merged as intended: every
      declaration must resolve, then the path-level and operation-level ones
      are merged by the `(in, name)` they resolve to, so the operation's own
      declaration replaces a path-level one with the same key. The merged
      declarations are handed on as written, so each `$ref` is followed once,
      by `build_function_code`. */
  function BuildOperationMerged(path: string, pathItem: seq<(string, Value)>, httpMethod: string,
                                operation: Value, baseUrl: string, root: Value)
    : (r: Result<FunctionDescriptor, GenError>)
    ensures !operation.Obj? ==> r == Err(NotAMapping("operation"))
    ensures r.Ok? ==> r.value.name == FunctionName(httpMethod, path) && r.value.verb == Lower(httpMethod)
  {
    match operation
    case Obj(opFields) =>
      var all :- ParameterList(GetOr(pathItem, "parameters", Arr([])), GetOr(opFields, "parameters", Arr([])));
      var resolved :- MapAll(all, p => ResolveRef(p, root));
      BuildFunction(FunctionName(httpMethod, path), httpMethod, path, MergeAll(all, KeyIn(root), NoKey), baseUrl, root)
    case _ => Err(NotAMapping("operation"))
  }

  // Unfolds the corrected operation once its declarations have resolved.
  lemma MergedUnfolds(path: string, pathItem: seq<(string, Value)>, httpMethod: string,
                      opFields: seq<(string, Value)>, baseUrl: string, root: Value,
                      a: seq<Value>, b: seq<Value>)
    requires GetOr(pathItem, "parameters", Arr([])) == Arr(a)
    requires GetOr(opFields, "parameters", Arr([])) == Arr(b)
    requires MapAll(a + b, p => ResolveRef(p, root)).Ok?
    ensures BuildOperationMerged(path, pathItem, httpMethod, Obj(opFields), baseUrl, root)
         == BuildFunction(FunctionName(httpMethod, path), httpMethod, path, MergeAll(a + b, KeyIn(root), NoKey), baseUrl, root)
  {
  }

  /** When no two declarations resolve to the same `(in, name)`, the merge
      changes nothing: the corrected operation is the operation as written,
      errors included. A value that is not a mapping has no key, so it
      stays in the list and is rejected as before. */
  lemma MergedAgreesWhenDistinct(path: string, pathItem: seq<(string, Value)>, httpMethod: string,
                                 opFields: seq<(string, Value)>, baseUrl: string, root: Value,
                                 a: seq<Value>, b: seq<Value>)
    requires GetOr(pathItem, "parameters", Arr([])) == Arr(a)
    requires GetOr(opFields, "parameters", Arr([])) == Arr(b)
    requires KeysDistinct(a + b, KeyIn(root), NoKey)
    ensures BuildOperationMerged(path, pathItem, httpMethod, Obj(opFields), baseUrl, root)
         == BuildOperation(path, pathItem, httpMethod, Obj(opFields), baseUrl, root)
  {
    OperationUnfolds(path, pathItem, httpMethod, opFields, baseUrl, root, a, b);
    if MapAll(a + b, p => ResolveRef(p, root)).Ok? {
      MergedUnfolds(path, pathItem, httpMethod, opFields, baseUrl, root, a, b);
      MergeDistinct(a + b, KeyIn(root), NoKey);
    }
  }

  /** A declaration that is a string has no key: the merge keeps it and the
      reader rejects it, as in the operation as written. */
  lemma MergedKeepsNonMapping(httpMethod: string, baseUrl: string, path: string)
    ensures var item := [("parameters", Arr([Str("x")]))];
      && BuildOperationMerged(path, item, httpMethod, Obj([]), baseUrl, Obj([])) == Err(NotAMapping("parameter"))
      && BuildOperation(path, item, httpMethod, Obj([]), baseUrl, Obj([])) == Err(NotAMapping("parameter"))
  {
    var root := Obj([]);
    var s := Str("x");
    assert [s] + [] == [s];
    assert ResolveRef(s, root) == Ok(s) by {
      assert !Contains("x", "$ref");
    }
    MergedAgreesWhenDistinct(path, [("parameters", Arr([s]))], httpMethod, [], baseUrl, root, [s], []);
    OperationUnfolds(path, [("parameters", Arr([s]))], httpMethod, [], baseUrl, root, [s], []);
    assert ParseParameters([s], root) == Err(NotAMapping("parameter"));
  }

  /** `{}` is kept by the merge and read, as in the operation as written,
      with every default: the query parameter `param`. */
  lemma MergedReadsEmpty(httpMethod: string, baseUrl: string, path: string)
    ensures var item := [("parameters", Arr([Obj([])]))];
      var r := BuildOperationMerged(path, item, httpMethod, Obj([]), baseUrl, Obj([]));
      && r == BuildOperation(path, item, httpMethod, Obj([]), baseUrl, Obj([]))
      && r.Ok? && |r.value.docs| == 1
      && ParseParameters([Obj([])], Obj([])) == Ok([Decl("param", Str("query"), Str(""))])
  {
    var root := Obj([]);
    var e := Obj([]);
    assert [e] + [] == [e];
    MergedAgreesWhenDistinct(path, [("parameters", Arr([e]))], httpMethod, [], baseUrl, root, [e], []);
    OperationUnfolds(path, [("parameters", Arr([e]))], httpMethod, [], baseUrl, root, [e], []);
    ParseOne(e, Decl("param", Str("query"), Str("")));
  }

  // A plain path parameter resolves to itself, and the two copies merge.
  lemma RedeclaredResolves(n: string)
    ensures var a := PathParam(n);
      && MapAll([a, a], p => ResolveRef(p, Obj([]))).Ok?
      && MergeAll([a, a], KeyIn(Obj([])), NoKey) == [a]
  {
    var a := PathParam(n);
    var root := Obj([]);
    ReadPlain(n, "path");
    var resolved := MapAll([a, a], p => ResolveRef(p, root));
    assert resolved.Ok? && resolved.value == [a, a];
    assert HasKey(a.fields, "name") by {
      assert a.fields[0].0 == "name";
    }
    assert KeyIn(root)(a) == KeyOf(a) != NoKey;
    MergeRepeated(a, KeyIn(root), NoKey);
  }

  /** With the merge, a path parameter the operation declares again is one
      argument, and its placeholder names it. */
  lemma RedeclaredMerged(httpMethod: string, baseUrl: string, n: string, level: seq<(string, Value)>)
    requires IsSanitized(n)
    requires level == [("parameters", Arr([PathParam(n)]))]
    ensures var r := BuildOperationMerged(Placeholder(n), level, httpMethod, Obj(level), baseUrl, Obj([]));
      && r.Ok?
      && r.value.signature == [Required(n)]
      && r.value.url == baseUrl + Placeholder(n)
  {
    var a := PathParam(n);
    var path := Placeholder(n);
    assert GetOr(level, "parameters", Arr([])) == Arr([a]);
    assert [a] + [a] == [a, a];
    RedeclaredResolves(n);
    MergedUnfolds(path, level, httpMethod, level, baseUrl, Obj([]), [a], [a]);
    OnePath(FunctionName(httpMethod, path), httpMethod, path, baseUrl, n);
    assert SubstituteSequential(path, [PathBinding(n, n)]) == path by {
      ReplaceIdentity(path, path);
    }
  }

  /** Selecting commutes with concatenation, so the operations keep the
      order they have in the path item. */
  lemma {:induction false} SelectedOpsConcat(a: seq<(string, Value)>, b: seq<(string, Value)>)
    ensures SelectedOps(a + b) == SelectedOps(a) + SelectedOps(b)
    decreases |a|
  {
    if a == [] {
      assert a + b == b;
    } else {
      assert (a + b)[0] == a[0];
      assert (a + b)[1..] == a[1..] + b;
      SelectedOpsConcat(a[1..], b);
    }
  }

  /** `f` is the function generated for `httpMethod path`. */
  predicate Describes(f: FunctionDescriptor, path: string, httpMethod: string) {
    && f.name == FunctionName(httpMethod, path)
    && f.verb == Lower(httpMethod)
    && f.header == Upper(httpMethod) + " " + path
  }

  lemma BuildOperationDescribes(path: string, pathItem: seq<(string, Value)>, httpMethod: string,
                                operation: Value, baseUrl: string, root: Value)
    ensures var r := BuildOperation(path, pathItem, httpMethod, operation, baseUrl, root);
      r.Ok? ==> Describes(r.value, path, httpMethod)
  {
    var r := BuildOperation(path, pathItem, httpMethod, operation, baseUrl, root);
    if r.Ok? {
      var h := r.value.header;
      assert h == h[..|httpMethod| + 1] + h[|httpMethod| + 1..];
    }
  }

  /** `generate_function_name` then `build_function_code` for one entry. */
  function BuildEntry(path: string, item: seq<(string, Value)>, baseUrl: string, root: Value)
    : ((string, Value)) -> Result<FunctionDescriptor, GenError>
  {
    (op: (string, Value)) => BuildOperation(path, item, op.0, op.1, baseUrl, root)
  }

  /** Every operation of a path item is selected, and only those. */
  lemma {:induction false} SelectedOpsMembers(item: seq<(string, Value)>)
    ensures forall k :: 0 <= k < |SelectedOps(item)| ==> SelectedOps(item)[k] in item
    ensures forall i :: 0 <= i < |item| && IsOperationKey(item[i].0) ==> item[i] in SelectedOps(item)
  {
    if item != [] {
      SelectedOpsMembers(item[1..]);
      assert forall i :: 1 <= i < |item| ==> item[1..][i - 1] == item[i];
    }
  }

  /** The functions of one path item, one per operation in order. */
  function PathFunctions(path: string, item: seq<(string, Value)>, baseUrl: string, root: Value)
    : (r: Result<seq<FunctionDescriptor>, GenError>)
    ensures r.Ok? ==> |r.value| == |SelectedOps(item)|
  {
    MapAll(SelectedOps(item), BuildEntry(path, item, baseUrl, root))
  }

  /** A path item yields functions when every one of its operations builds. */
  lemma PathFunctionsOk(path: string, item: seq<(string, Value)>, baseUrl: string, root: Value,
                        ops: seq<(string, Value)>)
    requires ops == SelectedOps(item)
    requires forall k :: 0 <= k < |ops| ==> BuildOperation(path, item, ops[k].0, ops[k].1, baseUrl, root).Ok?
    ensures PathFunctions(path, item, baseUrl, root).Ok?
  {
    var build := BuildEntry(path, item, baseUrl, root);
    forall k | 0 <= k < |ops| ensures build(ops[k]).Ok? {
      assert build(ops[k]) == BuildOperation(path, item, ops[k].0, ops[k].1, baseUrl, root);
    }
  }

  /** When a path item yields functions, the k-th function is the one built
      for the k-th operation. */
  lemma PathFunctionsAt(path: string, item: seq<(string, Value)>, baseUrl: string, root: Value,
                        ops: seq<(string, Value)>, k: int)
    requires ops == SelectedOps(item)
    requires PathFunctions(path, item, baseUrl, root).Ok?
    requires 0 <= k < |ops|
    ensures BuildOperation(path, item, ops[k].0, ops[k].1, baseUrl, root) == Ok(PathFunctions(path, item, baseUrl, root).value[k])
  {
    var build := BuildEntry(path, item, baseUrl, root);
    assert build(ops[k]) == BuildOperation(path, item, ops[k].0, ops[k].1, baseUrl, root);
  }

  /** A path item that fails fails with the error of its first operation
      that does not build. */
  lemma PathFunctionsErr(path: string, item: seq<(string, Value)>, baseUrl: string, root: Value,
                         ops: seq<(string, Value)>)
    requires ops == SelectedOps(item)
    requires PathFunctions(path, item, baseUrl, root).Err?
    ensures exists k :: (&& 0 <= k < |ops|
                         && BuildOperation(path, item, ops[k].0, ops[k].1, baseUrl, root)
                            == Err(PathFunctions(path, item, baseUrl, root).error)
                         && forall j :: 0 <= j < k ==> BuildOperation(path, item, ops[j].0, ops[j].1, baseUrl, root).Ok?)
  {
    var build := BuildEntry(path, item, baseUrl, root);
    var e := PathFunctions(path, item, baseUrl, root).error;
    var k :| 0 <= k < |ops| && build(ops[k]) == Err(e) && forall j :: 0 <= j < k ==> build(ops[j]).Ok?;
    assert build(ops[k]) == BuildOperation(path, item, ops[k].0, ops[k].1, baseUrl, root);
    forall j | 0 <= j < k ensures BuildOperation(path, item, ops[j].0, ops[j].1, baseUrl, root).Ok? {
      assert build(ops[j]) == BuildOperation(path, item, ops[j].0, ops[j].1, baseUrl, root);
    }
  }

  /** The k-th function of a path item is the one for its k-th operation. */
  lemma PathFunctionsDescribe(path: string, item: seq<(string, Value)>, baseUrl: string, root: Value)
    ensures var r := PathFunctions(path, item, baseUrl, root);
      r.Ok? ==> forall k :: 0 <= k < |r.value| ==> Describes(r.value[k], path, SelectedOps(item)[k].0)
  {
    var r := PathFunctions(path, item, baseUrl, root);
    var ops := SelectedOps(item);
    if r.Ok? {
      forall k | 0 <= k < |r.value| ensures Describes(r.value[k], path, ops[k].0) {
        PathFunctionsAt(path, item, baseUrl, root, ops, k);
        BuildOperationDescribes(path, item, ops[k].0, ops[k].1, baseUrl, root);
      }
    }
  }

  /** A path item yields functions only when every operation under it is a
      mapping: the first one that is not aborts the run. */
  lemma PathFunctionsNeedMappings(path: string, item: seq<(string, Value)>, baseUrl: string, root: Value)
    ensures PathFunctions(path, item, baseUrl, root).Ok? ==>
      forall i :: 0 <= i < |item| && IsOperationKey(item[i].0) ==> item[i].1.Obj?
  {
    var ops := SelectedOps(item);
    SelectedOpsMembers(item);
    if PathFunctions(path, item, baseUrl, root).Ok? {
      forall i | 0 <= i < |item| && IsOperationKey(item[i].0) ensures item[i].1.Obj? {
        var k :| 0 <= k < |ops| && ops[k] == item[i];
        PathFunctionsAt(path, item, baseUrl, root, ops, k);
      }
    }
  }

  /** `for method, method_obj in path_item.items()`: a path item that is not
      a mapping has no `items()`. */
  function PathItemFunctions(entry: (string, Value), baseUrl: string, root: Value)
    : (r: Result<seq<FunctionDescriptor>, GenError>)
    ensures !entry.1.Obj? ==> r == Err(NotAMapping("path item"))
    ensures entry.1.Obj? ==> r == PathFunctions(entry.0, entry.1.fields, baseUrl, root)
  {
    match entry.1
    case Obj(item) => PathFunctions(entry.0, item, baseUrl, root)
    case _ => Err(NotAMapping("path item"))
  }

  /** The concatenation of a list of lists, in order. */
  function Flatten<T>(xss: seq<seq<T>>): (r: seq<T>)
    ensures forall i, k :: 0 <= i < |xss| && 0 <= k < |xss[i]| ==> xss[i][k] in r
    ensures forall x :: x in r ==> exists i :: 0 <= i < |xss| && x in xss[i]
  {
    if xss == [] then []
    else
      var rest := Flatten(xss[1..]);
      assert forall i :: 1 <= i < |xss| ==> xss[1..][i - 1] == xss[i];
      xss[0] + rest
  }

  /** `groups[i]` holds the functions of the i-th path item: the item is a
      mapping, and its k-th function is the one `build_function_code` gives
      for its k-th operation with this base URL and this document as `$ref`
      root, so it is named, headed and sent as the operation prescribes and
      its URL starts with the base URL. */
  predicate GroupsDescribe(paths: seq<(string, Value)>, groups: seq<seq<FunctionDescriptor>>,
                           baseUrl: string, root: Value) {
    && |groups| == |paths|
    && forall i :: 0 <= i < |paths| ==>
         && paths[i].1.Obj?
         && |groups[i]| == |SelectedOps(paths[i].1.fields)|
         && forall k :: 0 <= k < |groups[i]| ==>
              && BuildOperation(paths[i].0, paths[i].1.fields, SelectedOps(paths[i].1.fields)[k].0,
                                SelectedOps(paths[i].1.fields)[k].1, baseUrl, root) == Ok(groups[i][k])
              && Describes(groups[i][k], paths[i].0, SelectedOps(paths[i].1.fields)[k].0)
              && StartsWith(groups[i][k].url, baseUrl)
  }

  function PathItems(paths: seq<(string, Value)>, baseUrl: string, root: Value)
    : (r: Result<seq<seq<FunctionDescriptor>>, GenError>)
    ensures r.Ok? ==> |r.value| == |paths|
  {
    MapAll(paths, (entry: (string, Value)) => PathItemFunctions(entry, baseUrl, root))
  }

  /** The groups of functions follow the paths of the document. */
  lemma PathItemsDescribe(paths: seq<(string, Value)>, baseUrl: string, root: Value)
    requires PathItems(paths, baseUrl, root).Ok?
    ensures GroupsDescribe(paths, PathItems(paths, baseUrl, root).value, baseUrl, root)
  {
    var groups := PathItems(paths, baseUrl, root).value;
    var f := (entry: (string, Value)) => PathItemFunctions(entry, baseUrl, root);
    forall i | 0 <= i < |paths|
      ensures && paths[i].1.Obj?
              && |groups[i]| == |SelectedOps(paths[i].1.fields)|
              && forall k :: 0 <= k < |groups[i]| ==>
                   && BuildOperation(paths[i].0, paths[i].1.fields, SelectedOps(paths[i].1.fields)[k].0,
                                     SelectedOps(paths[i].1.fields)[k].1, baseUrl, root) == Ok(groups[i][k])
                   && Describes(groups[i][k], paths[i].0, SelectedOps(paths[i].1.fields)[k].0)
                   && StartsWith(groups[i][k].url, baseUrl)
    {
      assert f(paths[i]) == Ok(groups[i]);
      GroupDescribes(paths[i].0, paths[i].1.fields, baseUrl, root, groups[i]);
    }
  }

  // One path item's share of PathItemsDescribe.
  lemma GroupDescribes(path: string, item: seq<(string, Value)>, baseUrl: string, root: Value,
                       group: seq<FunctionDescriptor>)
    requires PathFunctions(path, item, baseUrl, root) == Ok(group)
    ensures |group| == |SelectedOps(item)|
    ensures forall k :: 0 <= k < |group| ==>
      && BuildOperation(path, item, SelectedOps(item)[k].0, SelectedOps(item)[k].1, baseUrl, root) == Ok(group[k])
      && Describes(group[k], path, SelectedOps(item)[k].0)
      && StartsWith(group[k].url, baseUrl)
  {
    var ops := SelectedOps(item);
    forall k | 0 <= k < |group|
      ensures && BuildOperation(path, item, ops[k].0, ops[k].1, baseUrl, root) == Ok(group[k])
              && Describes(group[k], path, ops[k].0)
              && StartsWith(group[k].url, baseUrl)
    {
      PathFunctionsAt(path, item, baseUrl, root, ops, k);
      BuildOperationDescribes(path, item, ops[k].0, ops[k].1, baseUrl, root);
    }
  }

  /** Every function of the groups has a URL that starts with the base URL. */
  lemma FlattenUrls(paths: seq<(string, Value)>, groups: seq<seq<FunctionDescriptor>>, baseUrl: string, root: Value)
    requires GroupsDescribe(paths, groups, baseUrl, root)
    ensures forall f :: f in Flatten(groups) ==> StartsWith(f.url, baseUrl)
  {
    forall f | f in Flatten(groups) ensures StartsWith(f.url, baseUrl) {
      var i :| 0 <= i < |groups| && f in groups[i];
      var k :| 0 <= k < |groups[i]| && groups[i][k] == f;
    }
  }

  /** `generate_api_client_from_openapi` without its file I/O: the base URL,
      then the functions of every path item in document order. */
  function Generate(spec: Value): (r: Result<Client, GenError>)
    ensures !spec.Obj? ==> r == Err(NotAMapping("document"))
    ensures r.Ok? ==> BaseUrl(spec.fields) == Ok(r.value.baseUrl)
    ensures r.Ok? ==> GetOr(spec.fields, "paths", Obj([])).Obj?
    ensures r.Ok? ==> forall f :: f in r.value.functions ==> StartsWith(f.url, r.value.baseUrl)
  {
    match spec
    case Obj(fields) =>
      var baseUrl :- BaseUrl(fields);
      (match GetOr(fields, "paths", Obj([]))
       case Obj(paths) =>
         var groups :- PathItems(paths, baseUrl, spec);
         PathItemsDescribe(paths, baseUrl, spec);
         FlattenUrls(paths, groups, baseUrl, spec);
         Ok(Client(baseUrl, Flatten(groups)))
       case _ => Err(NotAMapping("paths")))
    case _ => Err(NotAMapping("document"))
  }

  /** The generated module is the functions of every path item, concatenated
      in document order; each is the function `build_function_code` gives
      for its operation, with the chosen base URL and the document itself as
      `$ref` root. */
  lemma GenerateDescribes(spec: Value)
    requires Generate(spec).Ok?
    ensures var paths := GetOr(spec.fields, "paths", Obj([])).fields;
      var c := Generate(spec).value;
      exists groups :: GroupsDescribe(paths, groups, c.baseUrl, spec) && c.functions == Flatten(groups)
  {
    var paths := GetOr(spec.fields, "paths", Obj([])).fields;
    var baseUrl := BaseUrl(spec.fields).value;
    assert PathItems(paths, baseUrl, spec).Ok?;
    var groups := PathItems(paths, baseUrl, spec).value;
    assert Generate(spec).value.functions == Flatten(groups);
    PathItemsDescribe(paths, baseUrl, spec);
  }
}
