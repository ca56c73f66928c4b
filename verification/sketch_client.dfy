/** The request-parameter builders of the hand-written Sketch Engine client
    (client.py): the enumerations it encodes, and for `concordance_search`,
    `wsdiff_search` and `thes_search` the argument checks and the `params`
    dict each one sends. Sending the request is not part of this model: a
    builder returns either the `ValueError` it raises or the dict. */
module SketchClient {
  import opened Results
  import opened Text
  import opened PyDict

  // ---------------------------------------------------------------------
  // Enumerations
  // ---------------------------------------------------------------------

  datatype QuerySelector = IQuery | Cql | LemmaQuery | CharQuery | WordQuery | PhraseQuery

  /** `QuerySelector.X.value` */
  function SelectorValue(s: QuerySelector): string {
    match s
    case IQuery => "iqueryrow"
    case Cql => "cqlrow"
    case LemmaQuery => "lemmarow"
    case CharQuery => "charrow"
    case WordQuery => "wordrow"
    case PhraseQuery => "phraserow"
  }

  /** `QuerySelector(value)`: the member with that value, if any. */
  function ParseSelector(value: string): (r: Option<QuerySelector>)
    ensures forall s :: r == Some(s) <==> SelectorValue(s) == value
  {
    if value == "iqueryrow" then Some(IQuery)
    else if value == "cqlrow" then Some(Cql)
    else if value == "lemmarow" then Some(LemmaQuery)
    else if value == "charrow" then Some(CharQuery)
    else if value == "wordrow" then Some(WordQuery)
    else if value == "phraserow" then Some(PhraseQuery)
    else None
  }

  /** The name of the form field a selector's query goes into. */
  function SelectorField(s: QuerySelector): string {
    match s
    case IQuery => "iquery"
    case Cql => "cql"
    case LemmaQuery => "lemma"
    case CharQuery => "char"
    case WordQuery => "word"
    case PhraseQuery => "phrase"
  }

  /** No `r` directly followed by `o`: `stem + "row"` then holds "row"
      only at its end. */
  predicate NoRo(stem: string) {
    forall i :: 0 <= i < |stem| - 1 ==> !(stem[i] == 'r' && stem[i + 1] == 'o')
  }

  /** `(stem + "row").replace("row", "")` is `stem`. */
  lemma {:induction false} RowSuffix(stem: string, value: string)
    requires value == stem + "row" && NoRo(stem)
    ensures Replace(value, "row", "") == stem
    decreases |stem|
  {
    if stem == [] {
      assert value[..3] == "row" && value[3..] == [];
    } else {
      assert value[..3] != "row" by {
        var second := if |stem| == 1 then 'r' else stem[1];
        assert value[..3][0] == stem[0] && value[..3][1] == second;
        assert "row"[0] == 'r' && "row"[1] == 'o';
        if |stem| > 1 { assert !(stem[0] == 'r' && stem[1] == 'o'); }
      }
      var t := stem[1..];
      assert NoRo(t) by {
        assert forall i :: 0 <= i < |t| ==> t[i] == stem[i + 1];
      }
      RowSuffix(t, value[1..]);
      assert stem == [stem[0]] + t;
    }
  }

  lemma NoRoWithout(stem: string)
    requires 'r' !in stem || 'o' !in stem
    ensures NoRo(stem)
  {
  }

  lemma NoRoWord(stem: string)
    requires stem == "word"
    ensures NoRo(stem)
  {
    assert stem[0] == 'w' && stem[1] == 'o' && stem[2] == 'r' && stem[3] == 'd';
  }

  /** `query_type.value.replace('row', '')`: the selector's field name. */
  lemma SelectorFieldFromValue(s: QuerySelector)
    ensures Replace(SelectorValue(s), "row", "") == SelectorField(s)
  {
    var stem := SelectorField(s);
    if s == WordQuery { NoRoWord(stem); } else { NoRoWithout(stem); }
    RowSuffix(stem, SelectorValue(s));
  }

  datatype ViewMode = Sentence | Kwic

  function ViewModeValue(v: ViewMode): string {
    match v
    case Sentence => "sen"
    case Kwic => "kwic"
  }

  function ParseViewMode(value: string): (r: Option<ViewMode>)
    ensures forall v :: r == Some(v) <==> ViewModeValue(v) == value
  {
    if value == "sen" then Some(Sentence)
    else if value == "kwic" then Some(Kwic)
    else None
  }

  datatype DiffBy = ByLemma | ByWordForm | BySubcorpus

  function DiffByValue(d: DiffBy): string {
    match d
    case ByLemma => "lemma"
    case ByWordForm => "word form"
    case BySubcorpus => "subcorpus"
  }

  function ParseDiffBy(value: string): (r: Option<DiffBy>)
    ensures forall d :: r == Some(d) <==> DiffByValue(d) == value
  {
    if value == "lemma" then Some(ByLemma)
    else if value == "word form" then Some(ByWordForm)
    else if value == "subcorpus" then Some(BySubcorpus)
    else None
  }

  // ---------------------------------------------------------------------
  // Argument values and the params dict
  // ---------------------------------------------------------------------

  /** A value stored in `params`; `VNone` is a `None` stored as is. */
  datatype PValue = VStr(s: string) | VInt(i: int) | VNone

  /** `Optional[Union[str, List[str]]]` arguments (`attrs`, `structs`). */
  datatype TextOrList = Text(s: string) | Items(xs: seq<string>)

  /** `Optional[Union[str, int]]` (`minfreq`). */
  datatype TextOrInt = TextArg(s: string) | IntArg(n: int)

  datatype ClientError = ValueError(message: string)

  /** `if x:` on an optional string: present and non-empty. */
  predicate Given(o: Option<string>) {
    o.Some? && o.value != []
  }

  /** `if x:` on an optional string or list. */
  predicate GivenList(o: Option<TextOrList>) {
    match o
    case None => false
    case Some(Text(s)) => s != []
    case Some(Items(xs)) => xs != []
  }

  /** `",".join(x) if isinstance(x, list) else x` */
  function Joined(v: TextOrList): string {
    match v
    case Text(s) => s
    case Items(xs) => Join(xs, ",")
  }

  /** A list of comma-free names is recovered from the joined string. */
  lemma JoinedRoundTrip(xs: seq<string>)
    requires xs != []
    requires forall k :: 0 <= k < |xs| ==> ',' !in xs[k]
    ensures Split(Joined(Items(xs)), ',') == xs
  {
    SplitJoin(xs, ',');
  }

  /** `str(minfreq)` */
  function MinfreqString(m: TextOrInt): string {
    match m
    case TextArg(s) => s
    case IntArg(n) => IntToString(n)
  }

  /** An optional int stored as given, `None` included. */
  function IntParam(o: Option<int>): PValue {
    match o
    case Some(n) => VInt(n)
    case None => VNone
  }

  /** The value an option leaves under its key, given the key was absent. */
  function Entry(present: bool, value: PValue): Option<PValue> {
    if present then Some(value) else None
  }

  // ---------------------------------------------------------------------
  // concordance_search
  // ---------------------------------------------------------------------

  datatype ConcordanceArgs = ConcordanceArgs(
    corpname: string, q: Option<string>, queryType: Option<QuerySelector>, query: Option<string>,
    usesubcorp: Option<string>, lpos: Option<string>, defaultAttr: Option<string>,
    attrs: Option<TextOrList>, refs: Option<string>, attrAllpos: Option<string>,
    viewmode: Option<ViewMode>, cupHl: Option<string>, structs: Option<TextOrList>,
    fromp: Option<int>, pagesize: Option<int>, kwicleftctx: Option<string>,
    kwicrightctx: Option<string>, asyn: Option<int>, format: Option<string>)

  /** The arguments of `concordance_search(corpname)` with every default. */
  function ConcordanceDefaults(corpname: string): ConcordanceArgs {
    ConcordanceArgs(corpname, None, None, None, None, None, None, None, None, None, None, None, None,
                    Some(1), Some(20), Some("100#"), Some("100#"), None, None)
  }

  const SelectorKey: string := "concordance_query[queryselector]"

  /** `f"concordance_query[{field}]"` */
  function QueryKey(field: string): string {
    "concordance_query[" + field + "]"
  }

  /** The query part: a non-empty `q` wins and is sent as CQL; otherwise a
      selector together with a non-empty query. */
  function QueryPart(d: Dict<PValue>, q: Option<string>, t: Option<QuerySelector>, query: Option<string>)
    : (r: Dict<PValue>)
    requires DistinctKeys(d)
    ensures DistinctKeys(r) && Keys(d) <= Keys(r)
  {
    if Given(q) then Set(Set(d, "q", VStr(q.value)), SelectorKey, VStr("cqlrow"))
    else if t.Some? && Given(query) then
      var v := SelectorValue(t.value);
      Set(Set(d, SelectorKey, VStr(v)), QueryKey(Replace(v, "row", "")), VStr(query.value))
    else d
  }

  /** The always-present entries, in order. */
  function ConcordanceBase(a: ConcordanceArgs): (r: Dict<PValue>)
    ensures DistinctKeys(r)
  {
    [("corpname", VStr(a.corpname)), ("fromp", IntParam(a.fromp)), ("pagesize", IntParam(a.pagesize))]
  }

  const ConcordanceOptionKeys: seq<string> :=
    ["usesubcorp", "lpos", "default_attr", "attrs", "refs", "attr_allpos", "viewmode",
     "cup_hl", "structs", "kwicleftctx", "kwicrightctx", "asyn", "format"]

  /** The optional entries after the query part: key, the source's test,
      and the encoded value, in the order the source sets them. */
  function ConcordanceSteps(a: ConcordanceArgs): (steps: seq<Assignment<PValue>>)
    ensures AssignedKeys(steps) == ConcordanceOptionKeys
  {
    [Assignment("usesubcorp", Given(a.usesubcorp), VStr(a.usesubcorp.GetOr(""))),
     Assignment("lpos", Given(a.lpos), VStr(a.lpos.GetOr(""))),
     Assignment("default_attr", Given(a.defaultAttr), VStr(a.defaultAttr.GetOr(""))),
     Assignment("attrs", GivenList(a.attrs), VStr(Joined(a.attrs.GetOr(Text(""))))),
     Assignment("refs", Given(a.refs), VStr(a.refs.GetOr(""))),
     Assignment("attr_allpos", Given(a.attrAllpos), VStr(a.attrAllpos.GetOr(""))),
     Assignment("viewmode", a.viewmode.Some?, VStr(ViewModeValue(a.viewmode.GetOr(Sentence)))),
     Assignment("cup_hl", Given(a.cupHl), VStr(a.cupHl.GetOr(""))),
     Assignment("structs", GivenList(a.structs), VStr(Joined(a.structs.GetOr(Text(""))))),
     Assignment("kwicleftctx", Given(a.kwicleftctx), VStr(a.kwicleftctx.GetOr(""))),
     Assignment("kwicrightctx", Given(a.kwicrightctx), VStr(a.kwicrightctx.GetOr(""))),
     Assignment("asyn", a.asyn.Some?, IntParam(a.asyn)),
     Assignment("format", Given(a.format), VStr(a.format.GetOr("")))]
  }

  /** The `params` of `concordance_search`, or its `ValueError`. */
  function Concordance(a: ConcordanceArgs): (r: Result<Dict<PValue>, ClientError>)
    ensures r.Err? <==> a.corpname == []
    ensures r.Err? ==> r.error == ValueError("corpname is required")
    ensures r.Ok? ==> DistinctKeys(r.value) && ["corpname", "fromp", "pagesize"] <= Keys(r.value)
  {
    if a.corpname == [] then Err(ValueError("corpname is required"))
    else
      var base := ConcordanceBase(a);
      assert Keys(base) == ["corpname", "fromp", "pagesize"];
      Ok(Run(QueryPart(base, a.q, a.queryType, a.query), ConcordanceSteps(a)))
  }

  const QueryPrefix: string := "concordance_query["

  /** The query part only touches `q` and `concordance_query[...]` keys. */
  lemma QueryPartFrame(d: Dict<PValue>, q: Option<string>, t: Option<QuerySelector>, query: Option<string>)
    requires DistinctKeys(d)
    ensures forall k :: k != "q" && !StartsWith(k, QueryPrefix) ==>
      Lookup(QueryPart(d, q, t, query), k) == Lookup(d, k)
  {
    assert StartsWith(SelectorKey, QueryPrefix);
    forall field: string ensures StartsWith(QueryKey(field), QueryPrefix) {
      assert QueryKey(field)[..|QueryPrefix|] == QueryPrefix;
    }
  }

  lemma ConcordanceOptionKeysDistinct()
    ensures DistinctStrings(ConcordanceOptionKeys)
  {
  }

  /** Keys the query part and the base entries never set. */
  predicate OutsideQuery(k: string) {
    k != "q" && !StartsWith(k, QueryPrefix) && k != "corpname" && k != "fromp" && k != "pagesize"
  }

  lemma ConcordanceOptionKeysFree()
    ensures forall p :: 0 <= p < |ConcordanceOptionKeys| ==> OutsideQuery(ConcordanceOptionKeys[p])
  {
    assert |QueryPrefix| == 18;
  }

  lemma ConcordanceFrom(a: ConcordanceArgs)
    requires a.corpname != []
    ensures Concordance(a).value
         == Run(QueryPart(ConcordanceBase(a), a.q, a.queryType, a.query), ConcordanceSteps(a))
  {
  }

  /** A key outside `q`, the query keys and the base keys is still unset
      after the query part. */
  lemma QueryPartLeaves(base: Dict<PValue>, q: Option<string>, t: Option<QuerySelector>, query: Option<string>, k: string)
    requires DistinctKeys(base) && Keys(base) == ["corpname", "fromp", "pagesize"]
    requires OutsideQuery(k)
    ensures Lookup(QueryPart(base, q, t, query), k) == None
  {
    QueryPartFrame(base, q, t, query);
  }

  /** What the query part adds, written with the selector's field name
      directly. */
  function QueryEntries(q: Option<string>, t: Option<QuerySelector>, query: Option<string>): (r: Dict<PValue>)
    ensures forall p :: 0 <= p < |r| ==> r[p].0 == "q" || StartsWith(r[p].0, QueryPrefix)
  {
    if Given(q) then
      assert StartsWith(SelectorKey, QueryPrefix);
      [("q", VStr(q.value)), (SelectorKey, VStr("cqlrow"))]
    else if t.Some? && Given(query) then
      var field := SelectorField(t.value);
      assert StartsWith(SelectorKey, QueryPrefix);
      assert QueryKey(field)[..|QueryPrefix|] == QueryPrefix;
      [(SelectorKey, VStr(SelectorValue(t.value))), (QueryKey(field), VStr(query.value))]
    else []
  }

  /** No selector's field key is the selector key itself. */
  lemma FieldKeyNotSelectorKey(s: QuerySelector)
    ensures StartsWith(QueryKey(SelectorField(s)), QueryPrefix)
    ensures QueryKey(SelectorField(s)) != SelectorKey
  {
    var k := QueryKey(SelectorField(s));
    assert k[..|QueryPrefix|] == QueryPrefix;
    assert |SelectorField(s)| <= 6;
    assert |k| != |SelectorKey|;
  }

  /** On a dict without `q` and query keys the query part appends its
      entries after the existing ones. */
  lemma QueryPartAppends(d: Dict<PValue>, q: Option<string>, t: Option<QuerySelector>, query: Option<string>)
    requires DistinctKeys(d)
    requires forall p :: 0 <= p < |d| ==> d[p].0 != "q" && !StartsWith(d[p].0, QueryPrefix)
    ensures QueryPart(d, q, t, query) == d + QueryEntries(q, t, query)
  {
    assert StartsWith(SelectorKey, QueryPrefix);
    if Given(q) {
      assert "q" !in Keys(d) && SelectorKey !in Keys(d);
      SetTwoFresh(d, "q", VStr(q.value), SelectorKey, VStr("cqlrow"));
    } else if t.Some? && Given(query) {
      SelectorPartAppends(d, t.value, query.value);
    }
  }

  lemma SelectorPartAppends(d: Dict<PValue>, s: QuerySelector, query: string)
    requires DistinctKeys(d)
    requires forall p :: 0 <= p < |d| ==> !StartsWith(d[p].0, QueryPrefix)
    ensures var v := SelectorValue(s);
      Set(Set(d, SelectorKey, VStr(v)), QueryKey(Replace(v, "row", "")), VStr(query))
      == d + [(SelectorKey, VStr(v)), (QueryKey(SelectorField(s)), VStr(query))]
  {
    SelectorFieldFromValue(s);
    FieldKeyNotSelectorKey(s);
    assert StartsWith(SelectorKey, QueryPrefix);
    var k := QueryKey(SelectorField(s));
    assert SelectorKey !in Keys(d) && k !in Keys(d);
    SetTwoFresh(d, SelectorKey, VStr(SelectorValue(s)), k, VStr(query));
  }

  /** Each optional entry is present exactly when its argument passes the
      source's test, and then holds the encoded value: strings and lists by
      truthiness, `viewmode` as its value, `asyn` whenever it is not `None`
      (so also `0`). */
  lemma ConcordanceOptionValues(a: ConcordanceArgs, i: nat)
    requires a.corpname != []
    requires i < |ConcordanceSteps(a)|
    ensures var step := ConcordanceSteps(a)[i];
      Lookup(Concordance(a).value, step.key) == Entry(step.present, step.value)
  {
    var base := ConcordanceBase(a);
    assert Keys(base) == ["corpname", "fromp", "pagesize"];
    OptionStepsAfterQuery(base, a.q, a.queryType, a.query, ConcordanceSteps(a), i);
    ConcordanceFrom(a);
  }

  /** The optional statements, run after the query part on the base
      entries, each decide their own key. */
  lemma OptionStepsAfterQuery(base: Dict<PValue>, q: Option<string>, t: Option<QuerySelector>, query: Option<string>,
                              steps: seq<Assignment<PValue>>, i: nat)
    requires DistinctKeys(base) && Keys(base) == ["corpname", "fromp", "pagesize"]
    requires AssignedKeys(steps) == ConcordanceOptionKeys
    requires i < |steps|
    ensures Lookup(Run(QueryPart(base, q, t, query), steps), steps[i].key) == Entry(steps[i].present, steps[i].value)
  {
    var d := QueryPart(base, q, t, query);
    ConcordanceOptionKeysFree();
    forall p | 0 <= p < |steps| ensures Lookup(d, steps[p].key) == None {
      assert steps[p].key == AssignedKeys(steps)[p];
      QueryPartLeaves(base, q, t, query, steps[p].key);
    }
    ConcordanceOptionKeysDistinct();
    RunFresh(d, steps, i);
  }

  /** The whole `params` dict, in insertion order: the three base entries,
      then the query entries, then each optional entry whose test passes. */
  lemma ConcordanceLayout(a: ConcordanceArgs)
    requires a.corpname != []
    ensures Concordance(a).value
         == ConcordanceBase(a) + QueryEntries(a.q, a.queryType, a.query) + Present(ConcordanceSteps(a))
  {
    var base := ConcordanceBase(a);
    assert Keys(base) == ["corpname", "fromp", "pagesize"];
    LayoutAfterBase(base, a.q, a.queryType, a.query, ConcordanceSteps(a));
    ConcordanceFrom(a);
  }

  lemma LayoutAfterBase(base: Dict<PValue>, q: Option<string>, t: Option<QuerySelector>, query: Option<string>,
                        steps: seq<Assignment<PValue>>)
    requires DistinctKeys(base) && Keys(base) == ["corpname", "fromp", "pagesize"]
    requires AssignedKeys(steps) == ConcordanceOptionKeys
    ensures Run(QueryPart(base, q, t, query), steps) == base + QueryEntries(q, t, query) + Present(steps)
  {
    assert |QueryPrefix| == 18;
    forall p | 0 <= p < |base| ensures base[p].0 != "q" && !StartsWith(base[p].0, QueryPrefix) {
      assert base[p].0 == Keys(base)[p];
    }
    QueryPartAppends(base, q, t, query);
    var d := QueryPart(base, q, t, query);
    var e := QueryEntries(q, t, query);
    ConcordanceOptionKeysFree();
    forall p | 0 <= p < |steps| ensures steps[p].key !in Keys(d) {
      var k := steps[p].key;
      assert k == AssignedKeys(steps)[p];
      assert OutsideQuery(k);
      forall j | 0 <= j < |d| ensures d[j].0 != k {
        if j < |base| {
          assert d[j].0 == Keys(base)[j];
        } else {
          assert d[j] == e[j - |base|];
        }
      }
    }
    ConcordanceOptionKeysDistinct();
    RunAppends(d, steps);
  }

  /** With a non-empty `q` the selector and its query are ignored. */
  lemma CqlIgnoresSelector(a: ConcordanceArgs, t: Option<QuerySelector>, query: Option<string>)
    requires Given(a.q)
    ensures Concordance(a.(queryType := t, query := query)) == Concordance(a)
  {
    var b := a.(queryType := t, query := query);
    if a.corpname != [] {
      ConcordanceLayout(a);
      ConcordanceLayout(b);
      assert ConcordanceBase(b) == ConcordanceBase(a);
      assert ConcordanceSteps(b) == ConcordanceSteps(a);
    }
  }

  /** With every default, the request carries the first page of twenty
      hits with a hundred characters of context on each side. */
  lemma ConcordanceDefaultParams(corpname: string)
    requires corpname != []
    ensures Concordance(ConcordanceDefaults(corpname)).value
         == [("corpname", VStr(corpname)), ("fromp", VInt(1)), ("pagesize", VInt(20)),
             ("kwicleftctx", VStr("100#")), ("kwicrightctx", VStr("100#"))]
  {
    var a := ConcordanceDefaults(corpname);
    ConcordanceLayout(a);
    DefaultsQueryEmpty(corpname);
    DefaultsSteps(corpname);
    OnlyContextPresent(ConcordanceSteps(a));
  }

  lemma DefaultsQueryEmpty(corpname: string)
    ensures var a := ConcordanceDefaults(corpname); QueryEntries(a.q, a.queryType, a.query) == []
  {
  }

  /** With the defaults only the two context widths are sent. */
  lemma DefaultsSteps(corpname: string)
    ensures var steps := ConcordanceSteps(ConcordanceDefaults(corpname));
      && |steps| == 13
      && steps[9] == Assignment("kwicleftctx", true, VStr("100#"))
      && steps[10] == Assignment("kwicrightctx", true, VStr("100#"))
      && forall p :: 0 <= p < |steps| && p != 9 && p != 10 ==> !steps[p].present
  {
  }

  lemma OnlyContextPresent(steps: seq<Assignment<PValue>>)
    requires |steps| == 13 && steps[9].present && steps[10].present
    requires forall p :: 0 <= p < |steps| && p != 9 && p != 10 ==> !steps[p].present
    ensures Present(steps) == [(steps[9].key, steps[9].value), (steps[10].key, steps[10].value)]
  {
    var ctx := steps[9..11];
    assert steps == steps[..9] + ctx + steps[11..];
    PresentAppend(steps[..9] + ctx, steps[11..]);
    PresentAppend(steps[..9], ctx);
    PresentNone(steps[..9]);
    PresentNone(steps[11..]);
    assert ctx[1..][0] == steps[10];
  }

  // ---------------------------------------------------------------------
  // wsdiff_search
  // ---------------------------------------------------------------------

  datatype WsdiffArgs = WsdiffArgs(
    corpname: string, lemma1: string, diffBy: Option<DiffBy>, lpos: Option<string>,
    lemma2: Option<string>, minfreq: Option<TextOrInt>, maxcommon: Option<int>,
    separateBlocks: Option<int>, maxexclusive: Option<int>, wordform1: Option<string>,
    wordform2: Option<string>, subcorp1: Option<string>, subcorp2: Option<string>,
    format: Option<string>)

  /** What each comparison mode needs besides the first lemma. */
  predicate DiffByComplete(a: WsdiffArgs) {
    && (a.diffBy == Some(ByLemma) ==> Given(a.lemma2))
    && (a.diffBy == Some(ByWordForm) ==> Given(a.wordform1) && Given(a.wordform2))
    && (a.diffBy == Some(BySubcorpus) ==> Given(a.subcorp1) && Given(a.subcorp2))
  }

  /** The mode-specific `ValueError` message, if any. */
  function DiffByError(a: WsdiffArgs): (r: Option<string>)
    ensures r.None? <==> DiffByComplete(a)
  {
    match a.diffBy
    case None => None
    case Some(ByLemma) =>
      if !Given(a.lemma2) then Some("lemma2 is required when diff_by=lemma") else None
    case Some(ByWordForm) =>
      if !Given(a.wordform1) || !Given(a.wordform2)
      then Some("wordform1 and wordform2 are required when diff_by=word form") else None
    case Some(BySubcorpus) =>
      if !Given(a.subcorp1) || !Given(a.subcorp2)
      then Some("subcorp1 and subcorp2 are required when diff_by=subcorpus") else None
  }

  /** `corpname`, `lemma`, and `diff_by` when a mode is chosen. */
  function WsdiffBase(a: WsdiffArgs): (r: Dict<PValue>)
    ensures DistinctKeys(r)
  {
    [("corpname", VStr(a.corpname)), ("lemma", VStr(a.lemma1))]
      + (if a.diffBy.Some? then [("diff_by", VStr(DiffByValue(a.diffBy.value)))] else [])
  }

  const WsdiffOptionKeys: seq<string> :=
    ["lpos", "lemma2", "minfreq", "maxcommon", "separate_blocks", "maxexclusive",
     "wordform1", "wordform2", "subcorp1", "subcorp2", "format"]

  function WsdiffSteps(a: WsdiffArgs): (steps: seq<Assignment<PValue>>)
    ensures AssignedKeys(steps) == WsdiffOptionKeys
  {
    [Assignment("lpos", Given(a.lpos), VStr(a.lpos.GetOr(""))),
     Assignment("lemma2", Given(a.lemma2), VStr(a.lemma2.GetOr(""))),
     Assignment("minfreq", a.minfreq.Some?, VStr(MinfreqString(a.minfreq.GetOr(TextArg(""))))),
     Assignment("maxcommon", a.maxcommon.Some?, IntParam(a.maxcommon)),
     Assignment("separate_blocks", a.separateBlocks.Some?, IntParam(a.separateBlocks)),
     Assignment("maxexclusive", a.maxexclusive.Some?, IntParam(a.maxexclusive)),
     Assignment("wordform1", Given(a.wordform1), VStr(a.wordform1.GetOr(""))),
     Assignment("wordform2", Given(a.wordform2), VStr(a.wordform2.GetOr(""))),
     Assignment("subcorp1", Given(a.subcorp1), VStr(a.subcorp1.GetOr(""))),
     Assignment("subcorp2", Given(a.subcorp2), VStr(a.subcorp2.GetOr(""))),
     Assignment("format", Given(a.format), VStr(a.format.GetOr("")))]
  }

  /** The `params` of `wsdiff_search`, or its `ValueError`. */
  function Wsdiff(a: WsdiffArgs): (r: Result<Dict<PValue>, ClientError>)
    ensures r.Ok? <==> a.corpname != [] && a.lemma1 != [] && DiffByComplete(a)
    ensures (a.corpname == [] || a.lemma1 == []) ==> r == Err(ValueError("corpname and lemma are required"))
    ensures a.corpname != [] && a.lemma1 != [] && !DiffByComplete(a) ==> r == Err(ValueError(DiffByError(a).value))
  {
    if a.corpname == [] || a.lemma1 == [] then Err(ValueError("corpname and lemma are required"))
    else match DiffByError(a)
      case Some(message) => Err(ValueError(message))
      case None => Ok(Run(WsdiffBase(a), WsdiffSteps(a)))
  }

  lemma WsdiffOptionKeysDistinct()
    ensures DistinctStrings(WsdiffOptionKeys)
  {
  }

  lemma WsdiffOptionKeysFree()
    ensures forall p :: 0 <= p < |WsdiffOptionKeys| ==>
      WsdiffOptionKeys[p] != "corpname" && WsdiffOptionKeys[p] != "lemma" && WsdiffOptionKeys[p] != "diff_by"
  {
  }

  /** The whole `params` dict when the checks pass: `corpname`, `lemma`,
      `diff_by` if a mode is chosen, then each optional entry whose test
      passes, in the source's order. */
  lemma WsdiffLayout(a: WsdiffArgs)
    requires a.corpname != [] && a.lemma1 != [] && DiffByComplete(a)
    ensures Wsdiff(a).value == WsdiffBase(a) + Present(WsdiffSteps(a))
  {
    var base := WsdiffBase(a);
    var steps := WsdiffSteps(a);
    assert Wsdiff(a).value == Run(base, steps);
    WsdiffBaseKeys(a);
    WsdiffAppends(base, steps);
  }

  lemma WsdiffBaseKeys(a: WsdiffArgs)
    ensures forall p :: 0 <= p < |WsdiffBase(a)| ==> WsdiffBase(a)[p].0 in ["corpname", "lemma", "diff_by"]
  {
  }

  lemma WsdiffAppends(base: Dict<PValue>, steps: seq<Assignment<PValue>>)
    requires DistinctKeys(base)
    requires forall p :: 0 <= p < |base| ==> base[p].0 in ["corpname", "lemma", "diff_by"]
    requires AssignedKeys(steps) == WsdiffOptionKeys
    ensures Run(base, steps) == base + Present(steps)
  {
    WsdiffOptionKeysFree();
    forall p | 0 <= p < |steps| ensures steps[p].key !in Keys(base) {
      assert steps[p].key == AssignedKeys(steps)[p];
    }
    WsdiffOptionKeysDistinct();
    RunAppends(base, steps);
  }

  // ---------------------------------------------------------------------
  // thes_search
  // ---------------------------------------------------------------------

  datatype ThesArgs = ThesArgs(
    corpname: string, lemma1: string, lpos: Option<string>, usesubcorp: Option<string>,
    minthesscore: Option<int>, maxthesitems: Option<int>, clustertitems: Option<int>,
    minsim: Option<int>, format: Option<string>)

  /** `clustertitems` is a flag: absent, 0 or 1. */
  predicate ClusterFlag(o: Option<int>) {
    o.Some? ==> o.value == 0 || o.value == 1
  }

  function ThesBase(a: ThesArgs): (r: Dict<PValue>)
    ensures DistinctKeys(r)
  {
    [("corpname", VStr(a.corpname)), ("lemma", VStr(a.lemma1))]
  }

  const ThesOptionKeys: seq<string> :=
    ["lpos", "usesubcorp", "minthesscore", "maxthesitems", "clustertitems", "minsim", "format"]

  function ThesSteps(a: ThesArgs): (steps: seq<Assignment<PValue>>)
    ensures AssignedKeys(steps) == ThesOptionKeys
  {
    [Assignment("lpos", Given(a.lpos), VStr(a.lpos.GetOr(""))),
     Assignment("usesubcorp", Given(a.usesubcorp), VStr(a.usesubcorp.GetOr(""))),
     Assignment("minthesscore", a.minthesscore.Some?, IntParam(a.minthesscore)),
     Assignment("maxthesitems", a.maxthesitems.Some?, IntParam(a.maxthesitems)),
     Assignment("clustertitems", a.clustertitems.Some?, IntParam(a.clustertitems)),
     Assignment("minsim", a.minsim.Some?, IntParam(a.minsim)),
     Assignment("format", Given(a.format), VStr(a.format.GetOr("")))]
  }

  /** The `params` of `thes_search`, or its `ValueError`. */
  function Thes(a: ThesArgs): (r: Result<Dict<PValue>, ClientError>)
    ensures r.Ok? <==> a.corpname != [] && a.lemma1 != [] && ClusterFlag(a.clustertitems)
    ensures (a.corpname == [] || a.lemma1 == []) ==> r == Err(ValueError("corpname and lemma are required"))
    ensures a.corpname != [] && a.lemma1 != [] && !ClusterFlag(a.clustertitems)
         ==> r == Err(ValueError("clustertitems must be 0 or 1"))
  {
    if a.corpname == [] || a.lemma1 == [] then Err(ValueError("corpname and lemma are required"))
    else if a.clustertitems.Some? && !(a.clustertitems.value == 0 || a.clustertitems.value == 1) then
      Err(ValueError("clustertitems must be 0 or 1"))
    else Ok(Run(ThesBase(a), ThesSteps(a)))
  }

  lemma ThesOptionKeysDistinct()
    ensures DistinctStrings(ThesOptionKeys)
  {
  }

  /** The whole `params` dict when the checks pass: `corpname`, `lemma`,
      then each optional entry whose test passes, in the source's order;
      the integer options are sent whenever they are not `None`. */
  lemma ThesLayout(a: ThesArgs)
    requires a.corpname != [] && a.lemma1 != [] && ClusterFlag(a.clustertitems)
    ensures Thes(a).value == ThesBase(a) + Present(ThesSteps(a))
  {
    var base := ThesBase(a);
    var steps := ThesSteps(a);
    assert Keys(base) == ["corpname", "lemma"];
    assert Thes(a).value == Run(base, steps);
    ThesAppends(base, steps);
  }

  lemma ThesAppends(base: Dict<PValue>, steps: seq<Assignment<PValue>>)
    requires DistinctKeys(base) && Keys(base) == ["corpname", "lemma"]
    requires AssignedKeys(steps) == ThesOptionKeys
    ensures Run(base, steps) == base + Present(steps)
  {
    forall p | 0 <= p < |steps| ensures steps[p].key !in Keys(base) {
      assert steps[p].key == ThesOptionKeys[p];
    }
    ThesOptionKeysDistinct();
    RunAppends(base, steps);
  }
}
