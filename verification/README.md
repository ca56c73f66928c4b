# Sketch Engine client generator and client — a Dafny model

This project models two parts of the Sketch Engine API tooling.

- **The generator** (`client_generator.py`) reads an OpenAPI document and writes one Python wrapper per operation. The model covers:
  - the identifier rules: `snake_case`, `sanitize_param_name`, `generate_function_name`, and the per-function collision resolution `get_unique_name`;
  - local `$ref` resolution;
  - `path_to_fstring`;
  - what `build_function_code` puts into a wrapper: docstring entries, signature, URL template, `params` mapping and HTTP verb;
  - the pure part of `generate_api_client_from_openapi`: base-URL choice, the walk over paths and verbs, and the concatenation of path-level and operation-level parameters;
  - for the two places where the code evidently misbehaves (see Findings), the corrected behaviour next to the code as written: a single-pass URL rewrite, and a merge of the parameter lists by `(in, name)`.
- **The hand-written client** (`client.py`). The model covers its three enumerations and how `concordance_search`, `wsdiff_search` and `thes_search` validate their arguments and build the request `params` dict. A `ValueError` becomes an `Err` value.

A Python dict is an insertion-ordered list of entries with distinct keys (`PyDict`). Each guarded assignment `if test: params[key] = value` is one `Assignment(key, present, value)`, and `Run` executes them in order. The parsed YAML tree is the `Json.Value` datatype, whose mappings keep their keys in document order. Exceptions the generator would raise on a malformed document are `GenErrors.GenError` values.

Modules, one per file:
- `Results` (Option/Result)
- `Text` (the `str` operations used)
- `Json`
- `GenErrors`
- `Refs`
- `Naming`
- `UrlTemplate`
- `FunctionBuilder`
- `ParamMerge` (the corrected parameter merge)
- `Driver`
- `PyDict`
- `SketchClient`

## Model

| member | source | states |
|---|---|---|
| Naming.SnakeCaseShape | client_generator.py:6-8 | `snake_case` output has only `[0-9a-z_]`, no `__`, no `_` at either end, and its alphanumerics are the input's alphanumerics lower-cased, in order |
| Naming.SnakeCaseIdempotent | client_generator.py:6-8 | applying `snake_case` twice gives the same result as applying it once |
| Naming.CollapseRunsShape | client_generator.py:8 | `re.sub('[^0-9a-zA-Z]+', '_')` leaves only alphanumerics and single underscores, keeps every alphanumeric in order, and starts with `_` only if the input starts with a non-alphanumeric |
| Naming.CollapseRunsFixed | client_generator.py:8 | a string of alphanumerics and single underscores is unchanged by the substitution |
| Naming.StripShape | client_generator.py:8 | `.strip('_')` of such a string keeps its shape and has no `_` at either end |
| Naming.StripAlnums | client_generator.py:8 | `.strip('_')` removes no alphanumeric |
| Naming.AlnumsLower | client_generator.py:8 | `.lower()` lower-cases exactly the alphanumerics |
| Naming.SkipNonAlnum | client_generator.py:8 | dropping a maximal run of non-alphanumerics leaves a suffix of the input that is empty or starts with an alphanumeric |
| Naming.FixBracketsIsReplace | client_generator.py:18 | the bracket step equals `replace('[', '_').replace(']', '')` |
| Naming.MapNonIdent | client_generator.py:26 | each character outside `[0-9a-zA-Z_]` becomes `_`, every other character is kept, and the length is kept |
| Naming.KeywordsShape | client_generator.py:29-34 | the reserved-word set has 33 entries, each a letter followed by at most seven lower-case letters |
| Naming.NotKeyword | client_generator.py:35 | a string with a non-letter, or with a capital after its first character, is not reserved |
| Naming.LongNotKeyword | client_generator.py:35 | a string of more than eight characters is not reserved |
| Naming.SanitizeParamName | client_generator.py:10-38 | the result has identifier characters `[0-9A-Za-z_]` only, does not start with a digit and is not reserved, and it may be empty: a name that is empty after the bracket step stays empty. It has no bracket; it starts with `p_` when the bracket-fixed name starts with a digit; a name that already has that shape is returned unchanged; a reserved word gets `_param` (the value for every name: `SanitizeParamNameValue`) |
| Naming.SanitizeParamNameValue | client_generator.py:17-38 | the value of `sanitize_param_name` for every name: with `f` the name after the bracket step, the stem is `p_` when `f` starts with a digit, followed by `f` with each non-identifier character turned into `_`; the result is the stem, with `_param` appended exactly when the stem is reserved |
| Naming.StemValue | client_generator.py:20-26 | steps 2 and 3 applied to `f`: a `p_` prefix exactly when `f` starts with a digit, then `f` character by character, `_` in place of each non-identifier character |
| Naming.SanitizeReservedAfterBracket | client_generator.py:17-36 | `if]` loses its bracket, lands on the reserved word `if` and becomes `if_param` |
| Naming.SanitizeDash | client_generator.py:26 | `foo-bar` becomes `foo_bar` |
| Naming.SanitizeLeadingDigit | client_generator.py:20-22 | `2x` becomes `p_2x` |
| Naming.SanitizeToEmpty | client_generator.py:17-38 | `]` and the empty name both sanitise to the empty string, and two parameters named `]` are named the empty string and `_2` |
| Naming.SanitizeSteps | client_generator.py:17-26 | after the three rewriting steps the name is identifier characters only, does not start with a digit, carries `p_` exactly as step 2 promises, and is unchanged when it was already valid |
| Naming.KeywordSuffixed | client_generator.py:35-36 | a reserved word with `_param` appended is a valid, non-reserved identifier |
| Naming.SanitizeBracketed | client_generator.py:17-18 | when replacing brackets already yields a sanitised name (identifier characters only, no leading digit, not reserved), that is the result |
| Naming.SanitizeIdempotent | client_generator.py:10-38 | sanitising a sanitised name changes nothing |
| Naming.FreeSuffix | client_generator.py:106-110 | the loop stops at the first index from 2 on whose candidate `base_index` is unused; every smaller candidate was in use |
| Naming.UniqueName | client_generator.py:99-112 | `get_unique_name` returns a name not yet used: the base itself when free, else `base_k` for the first free k ≥ 2; a sanitised base gives a sanitised name |
| Naming.AssignNames | client_generator.py:118-123 | naming the parameters in order gives pairwise distinct names, each of identifier characters only, not starting with a digit and not reserved (empty for a name that is empty after the bracket step); each is the unique name of its sanitised original, given the names before it |
| Naming.DuplicateGetsSuffixTwo | client_generator.py:107-110 | two parameters with the same name are named `s` and `s_2` |
| Naming.SecondUse | client_generator.py:107-110 | a base that is already used once gets suffix `_2` |
| Naming.FunctionNameShape | client_generator.py:55-57 | a function name is the lower-cased verb, `_`, then `snake_case(path)`; it uses only `[0-9a-z_]`, starts with a letter and is never a reserved word |
| Naming.UnderscoreJoin | client_generator.py:57 | joining a lower-case verb and a snake_case name with `_` gives an identifier of that shape, and the path part can be read back |
| Text.JoinSplit | client_generator.py:48 | joining `split('/')` with `/` restores the string |
| Text.SplitJoin | client_generator.py:48 | splitting a `/`-join of `/`-free parts restores the parts |
| Text.RStrip | client_generator.py:191 | `rstrip(c)` returns a prefix that does not end in `c`, and only `c` was removed |
| Text.LStrip | client_generator.py:8 | `lstrip(c)` returns a suffix that does not start with `c`, and only `c` was removed |
| Text.ReplaceIdentity | client_generator.py:70 | replacing a substring by itself changes nothing |
| Text.ReplaceAbsent | client_generator.py:157 | `s.replace(pat, rep)` leaves `s` alone when `pat` does not occur in it |
| Text.ReplaceSameLength | client_generator.py:18 | a replacement as long as its pattern, such as `replace('[', '_')`, keeps the length |
| Text.Split | client_generator.py:48 | `split('/')` returns at least one part, and no part contains the separator (the parts read back: `JoinSplit`, `SplitJoin`) |
| Text.NatToString | client_generator.py:109 | `str(index)` is a non-empty string of decimal digits |
| Text.NatToStringValue | client_generator.py:109 | `int(str(n)) == n`, and only 0 is written with a leading `0` |
| Text.IntToString | client.py:240 | `str(minfreq)` of an int is non-empty and starts with `-` exactly when the number is negative |
| Text.IntToStringValue | client.py:240 | `str(i)` reads back as `i`: a `-` and the digits of `-i` when negative, the digits of `i` otherwise |
| Json.Get | client_generator.py:119-121 | `d.get(key)` finds a value exactly when `key` is a key of `d`, and the value it finds is stored under `key` |
| Json.GetUnique | client_generator.py:119-121 | with distinct keys, `d.get(key)` is the value of the one entry with that key |
| Json.GetOrValue | client_generator.py:206-207 | `d.get(key, default)` is the default when `key` is absent and, with distinct keys, the value stored under `key` otherwise |
| Refs.ResolveRef | client_generator.py:41-52 | a mapping without `$ref` comes back as is; a `#/…` reference walks the document key by key; any other reference is `UnsupportedRef`; a non-string reference is an error |
| Refs.Walk | client_generator.py:49-51 | walking an empty key path returns the node; a failure names a key of the path that is missing or not subscriptable |
| Refs.WalkConcat | client_generator.py:50-51 | walking `a + b` is walking `a` and then `b` |
| Refs.RefToResolves | client_generator.py:46-51 | the reference `#/k1/…/kn` resolves to the node the walk over `k1 … kn` reaches |
| Refs.RefToNest | client_generator.py:41-52 | a reference into a document that nests `leaf` under exactly those keys resolves to `leaf` |
| Refs.RefToMissing | client_generator.py:51 | in an empty document a reference fails on its first key |
| UrlTemplate.PathToFString | client_generator.py:60-71 | `path_to_fstring` replaces each `{p}` with `{p}` and so returns the path unchanged |
| UrlTemplate.SubstituteOnceRewritesEachPlaceholder | client_generator.py:155-157 | for a template of literal characters and placeholders, the single-pass rewrite turns each `{original}` of a path parameter into `{py}`, leaves the other placeholders alone and copies the rest |
| UrlTemplate.SubstituteOnceSingle | client_generator.py:155-157 | with one path parameter, the single pass and the sequential `str.replace` agree |
| UrlTemplate.CollisionRewrites | client_generator.py:155-157 | on `/{a[b]}/{a_b}` with parameters named `a_b` and `a_b_2`, the sequential replace gives `/{a_b_2}/{a_b_2}`; the single pass gives `/{a_b}/{a_b_2}` |
| UrlTemplate.ReplaceRenders | client_generator.py:157 | one `replace('{o}', '{p}')` on a template of literals and brace-free placeholders renames exactly the `{o}` placeholders and copies everything else |
| UrlTemplate.SequentialRenders | client_generator.py:155-157 | the loop of replacements renames each placeholder through the whole chain of path parameters, in order: every rewrite sees the output of the ones before it |
| UrlTemplate.SequentialNameIsBinding | client_generator.py:156-157 | when path parameters have distinct OpenAPI names and no identifier is the OpenAPI name of a later one, a placeholder ends with the identifier of its own parameter, or keeps its name when it has none |
| UrlTemplate.SequentialRewritesEachPlaceholder | client_generator.py:155-157 | under the same condition the sequential replacement turns each `{original}` into its parameter's `{py}`, leaves other placeholders alone and copies the rest |
| UrlTemplate.SequentialAgreesWithOnce | client_generator.py:155-157 | under the same condition the sequential replacement and the single pass give the same URL |
| UrlTemplate.RedeclaredRewrite | client_generator.py:155-157 | a placeholder `{n}` bound first to `n` and then to `n_2` ends as `{n_2}` under the sequential replacement, and stays `{n}` under the single pass |
| UrlTemplate.NoBraceStringCopied | client_generator.py:155-157 | text without `{` passes through the single-pass rewrite unchanged |
| FunctionBuilder.MapAll | client_generator.py:88-90 | the loop succeeds exactly when every element does, and then keeps their order; otherwise it stops with the first element's error |
| FunctionBuilder.ReadParameter | client_generator.py:119-121 | a parameter reads its `in`, `name` and `description`, defaulting to `query`, `param` and `''`; a non-mapping is an error |
| FunctionBuilder.ParseParametersSucceeds | client_generator.py:87-90 | reading the parameters succeeds exactly when each one resolves and reads; the i-th declaration is the i-th parameter read |
| FunctionBuilder.NameParams | client_generator.py:118-129 | each parameter keeps its name, location and description and gets a distinct sanitised name (identifier characters only, no leading digit, not reserved, possibly empty), named in declaration order |
| FunctionBuilder.BuildFunction | client_generator.py:73-182 | building succeeds exactly when every parameter reads; the function has the given name and one doc entry per parameter; its header is `METHOD path`, its verb is the lower-cased method, and its URL starts with the base URL (the rest of the URL: `UrlRewritesPlaceholders`) |
| FunctionBuilder.DocsFollowParameters | client_generator.py:118-124 | the doc entries follow the parameters in order, with their location and description and distinct sanitised names, each the unique name of its sanitised original |
| FunctionBuilder.SignatureByLocation | client_generator.py:126-140 | every path parameter is a positional argument and every query parameter a `=None` keyword argument |
| FunctionBuilder.SignatureFromParameters | client_generator.py:136-140 | every argument comes from a path or query parameter of the matching kind |
| FunctionBuilder.SignatureLeavesOutOthers | client_generator.py:126-129 | a parameter with any other location is not an argument |
| FunctionBuilder.SignaturePositionalFirst | client_generator.py:136-140 | all positional arguments come before all keyword arguments |
| FunctionBuilder.SignatureKeepsOrder | client_generator.py:137-140 | within each kind the arguments follow declaration order |
| FunctionBuilder.QueryMapping | client_generator.py:161-171 | `params = None` exactly when there is no query parameter; otherwise every query parameter has the entry `'<name>': <identifier>`, and every entry is one of those |
| FunctionBuilder.QueryMappingCount | client_generator.py:165-167 | `params` has as many entries as there are query parameters |
| FunctionBuilder.QueryMappingInOrder | client_generator.py:165-167 | for two query parameters, the first one's entry comes before the second one's |
| FunctionBuilder.PathBindingsByLocation | client_generator.py:126-127 | the bindings used for the URL are exactly the path parameters, each binding its OpenAPI name to its identifier |
| FunctionBuilder.UrlRewritesPlaceholders | client_generator.py:155-158 | for a path of literals and placeholders, when path parameters have distinct OpenAPI names and no identifier is the OpenAPI name of a later path parameter, the URL built by the sequential replacement is the base URL followed by the path with each `{original}` rewritten to its own parameter's `{py}`; it equals the single-pass URL |
| FunctionBuilder.TwoPathsColliding | client_generator.py:99-112 | two path parameters with the same sanitised name become positional arguments `s` and `s_2` |
| FunctionBuilder.PathAndQuery | client_generator.py:126-171 | a path parameter and a query parameter give `(p, q=None)`, the path unchanged and `params = {'q': q}` |
| FunctionBuilder.OnePath | client_generator.py:126-157 | a single path parameter whose name is already sanitised (identifier characters only, no leading digit, not reserved) is the one positional argument, and the URL is the path after replacing its placeholder by itself |
| FunctionBuilder.CorpusScenario | client_generator.py:73-182 | `GET /corpora/{corpusId}` with a query parameter `usesubcorp` gives the expected signature, URL and `params` |
| FunctionBuilder.BracketCollisionScenario | client_generator.py:155-157 | for path parameters `a[b]` and `a_b` on `/{a[b]}/{a_b}`, the arguments are `a_b` and `a_b_2`, and the built URL is `/{a_b_2}/{a_b_2}`, as the sequential replacement makes it; the single pass would give `/{a_b}/{a_b_2}` |
| Driver.FirstServerUrl | client_generator.py:190-193 | `servers[0]['url'].rstrip('/')` when `url` is a key; the default URL otherwise; an error for each shape Python would reject |
| Driver.BaseUrl | client_generator.py:189-193 | the default URL when `servers` is missing, empty or not a list; otherwise the first server's URL |
| Driver.BaseUrlHasNoTrailingSlash | client_generator.py:191 | the chosen base URL never ends in `/` |
| Driver.ParameterList | client_generator.py:206-208 | path-level parameters come first, then operation-level ones; shapes that cannot be concatenated are an error |
| Driver.BuildOperation | client_generator.py:205-218 | an operation that is not a mapping is an error, as are parameter lists that cannot be concatenated; on success the function is named `generate_function_name(method, path)`, its verb is the lower-cased method and its URL starts with the base URL |
| Driver.OperationParameters | client_generator.py:206-215 | the function has one doc entry per declaration of either list: the first ones document the path-level declarations in order, the rest the operation's own in order, with nothing merged |
| Driver.RedeclaredPathParameter | client_generator.py:206-208 | a parameter declared at both levels is not de-duplicated: it becomes `s` and `s_2`, and both bindings take part in the URL's replacements |
| Driver.RedeclaredPathUrl | client_generator.py:155-157 | for a redeclared path parameter `n` whose name is already sanitised, the path `{n}` gives the arguments `n` and `n_2` and the URL `{n_2}` |
| Driver.BuildOperationMerged | client_generator.py:205-218 | the corrected operation: every declaration must resolve; declarations are merged by the `(in, name)` they resolve to, with the reader's defaults, and handed on as written, so each `$ref` is followed once. A value that is not a mapping has no key and is kept in its place, so the reader rejects it as before. An operation that is not a mapping is an error; on success the function is named and sent as `BuildOperation` names and sends it |
| Driver.MergedAgreesWhenDistinct | client_generator.py:205-218 | when no two declarations resolve to the same `(in, name)`, the corrected operation gives exactly what the operation as written gives, errors included |
| Driver.MergedKeepsNonMapping | client_generator.py:119 | a string declaration is kept by the merge and rejected as not a mapping, by both the corrected and the as-written operation |
| Driver.MergedReadsEmpty | client_generator.py:119-120 | `{}` is kept by the merge and read as the query parameter `param`, with the same result as the operation as written |
| Driver.RedeclaredMerged | client_generator.py:206-208 | with the merge, a path parameter `n` declared at both levels is the one argument `n`, and the URL keeps `{n}` |
| Driver.SelectedOps | client_generator.py:201-203 | only entries whose key lower-cases to an HTTP verb are kept, and no more entries than the path item has |
| Driver.SelectedOpsConcat | client_generator.py:201-203 | selecting from `a + b` selects from `a` and then from `b`, so operations keep the order of the path item |
| Driver.SelectedOpsMembers | client_generator.py:201-203 | exactly the keys that lower-case to one of the seven HTTP verbs are kept |
| Driver.PathFunctionsErr | client_generator.py:201-219 | a failing path item fails with the first failing operation's error |
| Driver.PathFunctionsAt | client_generator.py:201-219 | when a path item yields functions, its k-th function is the one built for its k-th operation |
| Driver.PathFunctionsDescribe | client_generator.py:201-219 | the k-th function of a path item is named, headed and sent as its k-th operation prescribes |
| Driver.PathFunctionsNeedMappings | client_generator.py:207 | when a path item succeeds, each of its operations is a mapping |
| Driver.Generate | client_generator.py:185-219 | a document that is not a mapping is an error; on success the base URL is the chosen one, `paths` is a mapping, and every generated function's URL starts with that base URL |
| Driver.GenerateDescribes | client_generator.py:195-219 | the generated module is the functions of each path item, concatenated in document order; each is the function `build_function_code` gives for its operation with the chosen base URL and the document itself as `$ref` root, so it is named, headed and sent as the operation prescribes |
| ParamMerge.Upsert | client_generator.py:206-208 | `merged[key] = p` grows the dict by at most one entry |
| ParamMerge.KeyOf | client_generator.py:119-120 | a value has no key exactly when it is not a mapping; a mapping is keyed by its `in` and `name` with the reader's defaults |
| ParamMerge.UpsertEntries | client_generator.py:206-208 | after `merged[key] = p` the dict holds `p`, and every other entry is an old one that does not share its key |
| ParamMerge.UpsertKeepsOthers | client_generator.py:206-208 | an entry that does not share the key of `p` keeps its value and its place; an entry without a key never shares one |
| ParamMerge.UpsertKeepsKeys | client_generator.py:206-208 | every key of the dict is still a key after the update |
| ParamMerge.UpsertDistinct | client_generator.py:206-208 | the update keeps the keys distinct: no two entries share a key, entries without one aside |
| ParamMerge.UpsertFresh | client_generator.py:206-208 | a new key, or no key at all, is appended at the end |
| ParamMerge.MergeAll | client_generator.py:206-208 | the merged list is no longer than the declarations |
| ParamMerge.MergeKeysDistinct | client_generator.py:206-208 | no two merged declarations share `(in, name)` |
| ParamMerge.MergeKeepsKeys | client_generator.py:206-208 | every declaration with a key has a merged entry with that key |
| ParamMerge.MergeKeepsKeyless | client_generator.py:119 | every element without a key is itself in the merge, so a value that is not a mapping reaches the reader |
| ParamMerge.MergeTakesLast | client_generator.py:206-208 | each merged entry is an element of the input and the last one sharing its key, so the operation's own declaration wins over the path-level one |
| ParamMerge.MergeDistinct | client_generator.py:206-208 | elements no two of which share a key, keyless ones included, are kept as they are, in order |
| ParamMerge.MergeRepeated | client_generator.py:206-208 | an element given twice is merged into one when it has a key, and kept twice when it has none |
| ParamMerge.MergeDefaultLocation | client_generator.py:119-120 | a declaration without `in` is keyed as a query parameter, so it merges with an explicit query declaration of the same name, the later one staying |
| SketchClient.ParseSelector | client.py:7-14 | looking up a `QuerySelector` by value finds exactly the member with that value |
| SketchClient.ParseViewMode | client.py:16-19 | looking up a `ViewMode` by value finds exactly the member with that value |
| SketchClient.ParseDiffBy | client.py:21-25 | looking up a `DiffBy` by value finds exactly the member with that value |
| SketchClient.SelectorFieldFromValue | client.py:140 | `value.replace('row', '')` is the field name of every selector, for example `wordrow` gives `word` |
| SketchClient.JoinedRoundTrip | client.py:148 | `",".join(attrs)` of comma-free items splits back into the items |
| SketchClient.Concordance | client.py:123-166 | an empty `corpname` raises `ValueError("corpname is required")`, and nothing else fails; on success `corpname`, `fromp` and `pagesize` lead the dict |
| SketchClient.ConcordanceLayout | client.py:127-166 | the dict is the three fixed entries, then the query entries, then each optional entry whose test passes, in source order |
| SketchClient.ConcordanceOptionValues | client.py:141-166 | each optional key holds its value exactly when its test passes and is absent otherwise |
| SketchClient.QueryPartAppends | client.py:134-140 | a non-empty `q` adds `q` and `queryselector=cqlrow`; otherwise a selector with a non-empty query adds the selector value and `concordance_query[<field>]`; otherwise nothing |
| SketchClient.QueryPartFrame | client.py:134-140 | the query part touches no key other than `q` and the `concordance_query[…]` keys |
| SketchClient.CqlIgnoresSelector | client.py:134-138 | when `q` is given, `query_type` and `query` make no difference |
| SketchClient.ConcordanceDefaultParams | client.py:127-166 | with the defaults the request is `corpname`, `fromp=1`, `pagesize=20`, `kwicleftctx=100#`, `kwicrightctx=100#` |
| SketchClient.DiffByError | client.py:224-232 | a mode-specific error is raised exactly when the chosen mode lacks what it needs |
| SketchClient.Wsdiff | client.py:214-232 | it succeeds exactly when `corpname` and `lemma` are non-empty and the mode is complete; the two error messages are the source's |
| SketchClient.WsdiffLayout | client.py:218-256 | the dict is `corpname`, `lemma`, `diff_by` if a mode is chosen, then each optional entry whose test passes, in source order (`minfreq` as a string) |
| SketchClient.Thes | client.py:294-319 | it succeeds exactly when `corpname` and `lemma` are non-empty and `clustertitems` is absent, 0 or 1; the two error messages are the source's |
| SketchClient.ThesLayout | client.py:298-319 | the dict is `corpname`, `lemma`, then each optional entry whose test passes, in source order |
| PyDict.Set | client.py:135-165 | `d[k] = v` keeps keys distinct, appends a new key or replaces in place, makes `k` hold `v` and leaves every other key alone |
| PyDict.RunAt | client.py:141-165 | with distinct keys, each guarded assignment decides its key: its value when the test passes, the old value otherwise |
| PyDict.RunAppends | client.py:141-165 | assignments to fresh, distinct keys append the entries whose tests pass, in order |

## Left out

- Reading the YAML file, writing the output file, the console message and the command line: I/O. `Generate` takes the parsed tree.
- Rendering the wrapper as Python text is not part of this model. That covers the docstring lines with their `rstrip`, the joins, the indentation and the `requests` call line. `FunctionBuilder.FunctionDescriptor` holds the parts that text is made of.
- The HTTP layer of `client.py` is not part of this model: the session, `.env` loading, `raise_for_status`, JSON decoding and the other client methods. So is the way `requests` encodes `params`, which drops `None` values and percent-encodes. The model keeps an explicit `VNone` entry, for example for `fromp=None`.
- `str.lower`/`str.upper` are modelled for ASCII letters only, so other characters are left unchanged. `snake_case` only passes ASCII alphanumerics through, so its output is exact.
- Python truthiness of arguments whose static type is not checked at run time is not modelled. `corpname` and `lemma` are strings, and a given empty string counts as absent. A caller passing `None`, a number or a list where a string is expected is not modelled.
- In `thes_search`, `True` and `False` compare equal to 1 and 0 for the `clustertitems` check. Booleans are not a separate case here.
- Refs.ResolveRef: follows one level only and does not unescape `~0`/`~1`, as the source does. A node reached through a `$ref` that is itself a `$ref` is returned as it is.
- Behaviours kept as the code has them:
  - `sanitize_param_name` drops `]` rather than turning it into `_`;
  - a name that is empty after that step sanitises to the empty string, which is not a Python identifier; a second such name becomes `_2` (`Naming.SanitizeToEmpty`);
  - parameters are not de-duplicated by `(in, name)`: `Driver.BuildOperation` concatenates the two lists, and the merge is modelled only as the corrected half of a finding;
  - the URL is built by one `str.replace` per path parameter, in order (`UrlTemplate.SubstituteSequential`); the single pass is modelled only as the corrected half of a finding;
  - no special handling of request bodies or of `required`;
  - `maxexclusive`'s documented dependence on `separate_blocks=1` is never checked, so it is not modelled.
- Driver.ParameterList: when both levels are strings, Python concatenates them and iterates the characters. The contract states only that this succeeds with one entry per character.
- Numbers in the parsed document are integers: floating point is left out.
- Mapping keys are strings only. `yaml.safe_load` also produces int and bool keys (`200:`, `on:`); on such a key in a path item `method.lower()` (client_generator.py:202) raises, and `node[part]` (client_generator.py:51) never matches it. Documents with such keys are not modelled.
- Json.Get: returns the first entry with the key. A parsed YAML mapping has distinct keys (a repeated key keeps the last value), so the contracts that fix the value (`GetUnique`, `GetOrValue`) are stated for distinct keys.
- ParamMerge.MergeAll: the order of first appearance is stated one update at a time (`UpsertKeepsOthers`, `UpsertFresh`, `MergeDistinct`), not as a positional lemma over the whole merge.
- Driver.BuildOperationMerged: its contract does not restate `BuildOperation`'s error clause for parameter lists that cannot be concatenated; `ParamMerge` states what the merge does.

## Findings

| source | as written | input that shows it | evidently intended | confidence | as-written member | corrected member |
|---|---|---|---|---|---|---|
| client_generator.py:155-157 | each path parameter's `{original}` is rewritten by a whole-string `str.replace`, one parameter after another, so a placeholder inserted by an earlier rewrite can be rewritten again by a later one | path `/{a[b]}/{a_b}` with path parameters `a[b]` and `a_b`: they are named `a_b` and `a_b_2`, and the URL becomes `/{a_b_2}/{a_b_2}`, so both segments take the second argument | `/{a_b}/{a_b_2}`: each placeholder refers to its own parameter | not executed | UrlTemplate.CollisionRewrites | UrlTemplate.SubstituteOnceRewritesEachPlaceholder |
| client_generator.py:206-208 | the path-level and operation-level parameter lists are concatenated, so a path parameter the operation declares again becomes a second argument, and the sequential replacement at lines 155-157 then points its placeholder at the second one | a path item and its operation both declaring the path parameter `s` on path `{s}`: the function takes `(s, s_2)` and its URL is `{s_2}`, so the first argument is never used | one argument `s` and the URL `{s}`: the operation's declaration replaces the path-level one with the same `(in, name)`, as the Path Item Object of the OpenAPI Specification 3.0 prescribes | not executed | Driver.RedeclaredPathUrl | Driver.RedeclaredMerged |
