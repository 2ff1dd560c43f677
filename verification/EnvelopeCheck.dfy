/** `validate_request_metadata` accepts exactly the acceptable requests
    (cosai_mcp/middleware/request_meta.py:155-314). */
module EnvelopeCheck {
  import opened Wrappers
  import opened Json
  import opened Protocol
  import opened Envelope
  import HeaderCodec

  // ---------------------------------------------------------------------------
  // Values of rendered headers
  // ---------------------------------------------------------------------------

  lemma {:induction false} ValuesConcat(a: Headers, b: Headers, norm: string -> string, h: string)
    ensures Values(a + b, norm, h) == Values(a, norm, h) + Values(b, norm, h)
    decreases |b|
  {
    if b == [] {
      assert a + b == a;
    } else {
      var n := |b| - 1;
      ValuesConcat(a, b[..n], norm, h);
      assert (a + b)[..|a + b| - 1] == a + b[..n];
    }
  }

  lemma LowerNames()
    ensures Lower(HEADER_PROTOCOL_VERSION) == VERSION_HEADER
    ensures Lower(HEADER_METHOD) == METHOD_HEADER
    ensures Lower(HEADER_NAME) == NAME_HEADER
    ensures Lower(HEADER_PARAM_PREFIX) == PARAM_PREFIX
  {
  }

  function ParamHeader(name: string): string { Lower(HEADER_PARAM_PREFIX + name) }

  lemma ParamHeaderIsParam(name: string)
    ensures ParamHeader(name) == PARAM_PREFIX + Lower(name)
    ensures StartsWith(ParamHeader(name), PARAM_PREFIX)
    ensures ParamHeader(name) !in {VERSION_HEADER, METHOD_HEADER, NAME_HEADER}
  {
    LowerNames();
    var h := ParamHeader(name);
    assert h == Lower(HEADER_PARAM_PREFIX) + Lower(name);
    assert h[4] == 'p' && VERSION_HEADER[4] == 'p' && h[5] == 'a' && VERSION_HEADER[5] == 'r';
    assert METHOD_HEADER[4] == 'm' && NAME_HEADER[4] == 'n';
  }

  lemma SameParamHeader(a: string, b: string)
    ensures ParamHeader(a) == ParamHeader(b) <==> Lower(a) == Lower(b)
  {
    ParamHeaderIsParam(a);
    ParamHeaderIsParam(b);
    if ParamHeader(a) == ParamHeader(b) {
      assert ParamHeader(a)[|PARAM_PREFIX|..] == Lower(a);
      assert ParamHeader(b)[|PARAM_PREFIX|..] == Lower(b);
    }
  }

  function RenderedFor(a: Annotation, arguments: Json): seq<string> {
    match Render(ArgAt(arguments, a.path))
    case Text(t) => [t]
    case _ => []
  }

  lemma ParamHeadersSnoc(anns: seq<Annotation>, arguments: Json, h: string)
    requires anns != []
    ensures var n := |anns| - 1;
            Values(ParamHeaders(anns, arguments), Lower, h) ==
            Values(ParamHeaders(anns[..n], arguments), Lower, h)
            + (if ParamHeader(anns[n].name) == h then RenderedFor(anns[n], arguments) else [])
  {
    var n := |anns| - 1;
    var last := ParamHeaders(anns, arguments)[|ParamHeaders(anns[..n], arguments)|..];
    ValuesConcat(ParamHeaders(anns[..n], arguments), last, Lower, h);
    assert ParamHeaders(anns, arguments) == ParamHeaders(anns[..n], arguments) + last;
    match Render(ArgAt(arguments, anns[n].path))
    case Text(t) =>
      assert last == [(HEADER_PARAM_PREFIX + anns[n].name, t)];
      assert last[..0] == [];
    case _ =>
      assert last == [];
  }

  /** A parameter header nobody declared is not rendered. */
  lemma {:induction false} UndeclaredNotRendered(anns: seq<Annotation>, arguments: Json, h: string)
    requires forall a :: a in anns ==> ParamHeader(a.name) != h
    ensures Values(ParamHeaders(anns, arguments), Lower, h) == []
  {
    if anns != [] {
      assert anns[|anns| - 1] in anns;
      UndeclaredNotRendered(anns[..|anns| - 1], arguments, h);
      ParamHeadersSnoc(anns, arguments, h);
    }
  }

  lemma OthersDiffer(anns: seq<Annotation>, n: nat)
    requires DistinctNames(anns) && n < |anns|
    ensures forall a :: a in anns[..n] ==> ParamHeader(a.name) != ParamHeader(anns[n].name)
  {
    forall a | a in anns[..n]
      ensures ParamHeader(a.name) != ParamHeader(anns[n].name)
    {
      var j :| 0 <= j < n && anns[j] == a;
      SameParamHeader(a.name, anns[n].name);
    }
  }

  lemma LastRenderedOnce(anns: seq<Annotation>, arguments: Json)
    requires DistinctNames(anns) && anns != []
    ensures var last := anns[|anns| - 1];
            Values(ParamHeaders(anns, arguments), Lower, ParamHeader(last.name)) == RenderedFor(last, arguments)
  {
    var n := |anns| - 1;
    var h := ParamHeader(anns[n].name);
    ParamHeadersSnoc(anns, arguments, h);
    OthersDiffer(anns, n);
    UndeclaredNotRendered(anns[..n], arguments, h);
  }

  lemma EarlierKept(anns: seq<Annotation>, arguments: Json, a: Annotation)
    requires anns != [] && Lower(anns[|anns| - 1].name) != Lower(a.name)
    ensures Values(ParamHeaders(anns, arguments), Lower, ParamHeader(a.name))
         == Values(ParamHeaders(anns[..|anns| - 1], arguments), Lower, ParamHeader(a.name))
  {
    ParamHeadersSnoc(anns, arguments, ParamHeader(a.name));
    SameParamHeader(anns[|anns| - 1].name, a.name);
  }

  lemma DistinctInit(anns: seq<Annotation>)
    requires DistinctNames(anns) && anns != []
    ensures DistinctNames(anns[..|anns| - 1])
  {
  }

  /** A declared one is rendered once, or not at all. */
  lemma {:induction false} DeclaredRenderedOnce(anns: seq<Annotation>, arguments: Json, i: nat)
    requires DistinctNames(anns) && i < |anns|
    ensures Values(ParamHeaders(anns, arguments), Lower, ParamHeader(anns[i].name)) == RenderedFor(anns[i], arguments)
  {
    if i == |anns| - 1 {
      LastRenderedOnce(anns, arguments);
    } else {
      EarlierKept(anns, arguments, anns[i]);
      DistinctInit(anns);
      DeclaredRenderedOnce(anns[..|anns| - 1], arguments, i);
    }
  }

  lemma {:induction false} OnlyParamHeaders(anns: seq<Annotation>, arguments: Json, p: (string, string))
    requires p in ParamHeaders(anns, arguments)
    ensures exists a :: a in anns && p.0 == HEADER_PARAM_PREFIX + a.name
  {
    var n := |anns| - 1;
    if p in ParamHeaders(anns[..n], arguments) {
      OnlyParamHeaders(anns[..n], arguments, p);
    } else {
      assert anns[n] in anns && p.0 == HEADER_PARAM_PREFIX + anns[n].name;
    }
  }

  /** The parameter part contributes nothing to the three fixed headers, and the fixed
      part nothing to parameter headers. */
  lemma ParamPartIsSeparate(anns: seq<Annotation>, arguments: Json, h: string)
    requires h in {VERSION_HEADER, METHOD_HEADER, NAME_HEADER}
    ensures Values(ParamHeaders(anns, arguments), Lower, h) == []
  {
    forall a | a in anns
      ensures ParamHeader(a.name) != h
    {
      ParamHeaderIsParam(a.name);
    }
    UndeclaredNotRendered(anns, arguments, h);
  }

  function NameValues(rpcMethod: string, params: Json): seq<string> {
    match NameFor(rpcMethod, params)
    case Some(Str(s)) => [HeaderCodec.EncodeValue(s)]
    case _ => []
  }

  lemma OneValue(k: string, v: string, h: string)
    ensures Values([(k, v)], Lower, h) == if Lower(k) == h then [v] else []
  {
    assert [(k, v)][..0] == [];
  }

  function NamePart(rpcMethod: string, params: Json): Headers {
    match NameFor(rpcMethod, params)
    case Some(Str(s)) => [(HEADER_NAME, HeaderCodec.EncodeValue(s))]
    case _ => []
  }

  lemma NamePartValues(rpcMethod: string, params: Json, h: string)
    ensures Values(NamePart(rpcMethod, params), Lower, h) ==
            if h == NAME_HEADER then NameValues(rpcMethod, params) else []
  {
    LowerNames();
    match NameFor(rpcMethod, params)
    case Some(Str(s)) => OneValue(HEADER_NAME, HeaderCodec.EncodeValue(s), h);
    case _ =>
  }

  lemma MetadataValues(rpcMethod: string, params: Json, version: string, h: string)
    ensures Values(MetadataHeaders(rpcMethod, params, version), Lower, h) ==
            if h == VERSION_HEADER then [version]
            else if h == METHOD_HEADER then [rpcMethod]
            else if h == NAME_HEADER then NameValues(rpcMethod, params)
            else []
  {
    hide Values, Lower, NameValues;
    LowerNames();
    var a, b := [(HEADER_PROTOCOL_VERSION, version)], [(HEADER_METHOD, rpcMethod)];
    var nm := NamePart(rpcMethod, params);
    assert MetadataHeaders(rpcMethod, params, version) == (a + b) + nm;
    ValuesConcat(a + b, nm, Lower, h);
    ValuesConcat(a, b, Lower, h);
    OneValue(HEADER_PROTOCOL_VERSION, version, h);
    OneValue(HEADER_METHOD, rpcMethod, h);
    NamePartValues(rpcMethod, params, h);
    FixedNamesDiffer();
  }

  lemma FixedNamesDiffer()
    ensures VERSION_HEADER != METHOD_HEADER && VERSION_HEADER != NAME_HEADER && METHOD_HEADER != NAME_HEADER
  {
    assert |VERSION_HEADER| == 20 && |METHOD_HEADER| == 10 && |NAME_HEADER| == 8;
  }

  /** The parameter headers that the body renders. */
  function ParamPart(body: Json, rpcMethod: string, schemas: Schemas): Headers {
    match SchemaFor(body, rpcMethod, schemas)
    case Some(schema) => ParamHeaders(Annotations(schema), ArgumentsOf(body))
    case None => []
  }

  lemma RenderingValues(body: Json, rpcMethod: string, version: string, schemas: Schemas, h: string)
    requires Routing(h)
    ensures Values(Rendering(body, rpcMethod, version, schemas), Lower, h) ==
            if h == VERSION_HEADER then [version]
            else if h == METHOD_HEADER then [rpcMethod]
            else if h == NAME_HEADER then NameValues(rpcMethod, ParamsOf(body))
            else Values(ParamPart(body, rpcMethod, schemas), Lower, h)
  {
    ValuesConcat(MetadataHeaders(rpcMethod, ParamsOf(body), version), ParamPart(body, rpcMethod, schemas), Lower, h);
    MetadataValues(rpcMethod, ParamsOf(body), version, h);
    match SchemaFor(body, rpcMethod, schemas)
    case Some(schema) =>
      if h in {VERSION_HEADER, METHOD_HEADER, NAME_HEADER} {
        ParamPartIsSeparate(Annotations(schema), ArgumentsOf(body), h);
      }
    case None =>
  }

  // ---------------------------------------------------------------------------
  // The checks, one by one
  // ---------------------------------------------------------------------------

  /** At most one copy; `Err` when there are several. */
  function Single(m: Multimap, name: string): Result<Option<string>, Reason> {
    if name !in m then Ok(None)
    else if |m[name]| != 1 then Err(Mismatch)
    else Ok(Some(m[name][0]))
  }

  lemma SingleIs(m: Multimap, pairs: Headers, norm: string -> string, h: string)
    requires IsMultimap(m, pairs, norm)
    ensures Single(m, h) == Ok(None) <==> Values(pairs, norm, h) == []
    ensures forall v :: Single(m, h) == Ok(Some(v)) <==> Values(pairs, norm, h) == [v]
    ensures h in m <==> Values(pairs, norm, h) != []
  {
    assert Values(pairs, norm, h) == (if h in m then m[h] else []);
    forall v
      ensures Single(m, h) == Ok(Some(v)) <==> Values(pairs, norm, h) == [v]
    {
      if h in m && |m[h]| == 1 {
        assert m[h] == [m[h][0]];
      }
    }
  }

  /** The gate before every fallback signal. */
  method LegacyGate(m: Multimap, supported: set<string>, ghost pairs: Headers, ghost norm: string -> string)
    returns (r: Option<Reason>)
    requires IsMultimap(m, pairs, norm)
    ensures r.None? <==> NoModernRouting(pairs, norm)
    ensures r.Some? ==> r.value == Mismatch || r.value == UnsupportedVersion
    ensures r == Some(UnsupportedVersion) ==> exists v :: v !in supported && Values(pairs, norm, VERSION_HEADER) == [v]
  {
    SingleIs(m, pairs, norm, VERSION_HEADER);
    SingleIs(m, pairs, norm, METHOD_HEADER);
    SingleIs(m, pairs, norm, NAME_HEADER);
    assert Routing(METHOD_HEADER) && Routing(NAME_HEADER);
    if METHOD_HEADER in m || NAME_HEADER in m {
      return Some(Mismatch);
    }
    if h :| h in m && StartsWith(h, PARAM_PREFIX) {
      SingleIs(m, pairs, norm, h);
      ParamIsNotFixed(h);
      assert Routing(h);
      return Some(Mismatch);
    }
    forall h | Routing(h) && h != VERSION_HEADER
      ensures Values(pairs, norm, h) == []
    {
      SingleIs(m, pairs, norm, h);
    }
    var hv := Single(m, VERSION_HEADER);
    if hv.Err? {
      return Some(Mismatch);
    }
    if hv.value.Some? && hv.value.value !in LEGACY_VERSIONS {
      return Some(if hv.value.value in supported then Mismatch else UnsupportedVersion);
    }
    return None;
  }

  lemma ParamIsNotFixed(h: string)
    requires StartsWith(h, PARAM_PREFIX)
    ensures h !in {VERSION_HEADER, METHOD_HEADER, NAME_HEADER}
  {
    assert h[4] == h[..|PARAM_PREFIX|][4] == 'p' && h[5] == h[..|PARAM_PREFIX|][5] == 'a';
    assert VERSION_HEADER[5] == 'r' && METHOD_HEADER[4] == 'm' && NAME_HEADER[4] == 'n';
  }

  /** Mcp-Name: the canonical encoding of the body's name, or no header. */
  method CheckName(m: Multimap, body: Json, rpcMethod: string, ghost pairs: Headers, ghost norm: string -> string)
    returns (r: Option<Reason>)
    requires IsMultimap(m, pairs, norm)
    ensures r.None? <==> NameGiven(body, rpcMethod) && NameAgrees(pairs, norm, body, rpcMethod)
    ensures r == Some(InvalidName) ==> !NameGiven(body, rpcMethod)
    ensures r.Some? && r.value != InvalidName ==> r.value == Mismatch && !NameAgrees(pairs, norm, body, rpcMethod)
  {
    SingleIs(m, pairs, norm, NAME_HEADER);
    var raw := Single(m, NAME_HEADER);
    if raw.Err? {
      return Some(Mismatch);
    }
    if NameField(rpcMethod).Some? {
      var expected := NameFor(rpcMethod, ParamsOf(body));
      if expected.None? {
        return Some(InvalidName);
      }
      if expected.value.IllFormed? {
        return Some(InvalidName);
      }
      var canonical := HeaderCodec.EncodeValue(expected.value.s);
      if raw.value != Some(canonical) {
        return Some(Mismatch);
      }
    } else if raw.value.Some? {
      return Some(Mismatch);
    }
    return None;
  }

  ghost predicate NameAgrees(pairs: Headers, norm: string -> string, body: Json, rpcMethod: string) {
    Values(pairs, norm, NAME_HEADER) == NameValues(rpcMethod, ParamsOf(body))
  }

  ghost predicate ParamsAgree(pairs: Headers, norm: string -> string, anns: seq<Annotation>, arguments: Json) {
    && (forall h :: StartsWith(h, PARAM_PREFIX) ==>
          Values(pairs, norm, h) == Values(ParamHeaders(anns, arguments), Lower, h))
    && (forall a :: a in anns ==>
          ArgAt(arguments, a.path).Null? || Render(ArgAt(arguments, a.path)).Text?)
  }

  /** One annotation: its header is the canonical rendering of its argument, or both
      are absent. */
  ghost predicate OneAgrees(pairs: Headers, norm: string -> string, a: Annotation, arguments: Json) {
    && Values(pairs, norm, ParamHeader(a.name)) == RenderedFor(a, arguments)
    && (ArgAt(arguments, a.path).Null? || Render(ArgAt(arguments, a.path)).Text?)
  }

  ghost predicate Declared(anns: seq<Annotation>, h: string) {
    exists a :: a in anns && ParamHeader(a.name) == h
  }

  /** Every parameter header carried is a declared one. */
  ghost predicate OnlyDeclared(pairs: Headers, norm: string -> string, anns: seq<Annotation>) {
    forall h :: StartsWith(h, PARAM_PREFIX) && Values(pairs, norm, h) != [] ==> Declared(anns, h)
  }

  ghost predicate EachAgrees(pairs: Headers, norm: string -> string, anns: seq<Annotation>, arguments: Json) {
    AgreeUpTo(pairs, norm, anns, arguments, |anns|)
  }

  lemma RenderedOf(anns: seq<Annotation>, arguments: Json, a: Annotation)
    requires DistinctNames(anns) && a in anns
    ensures Values(ParamHeaders(anns, arguments), Lower, ParamHeader(a.name)) == RenderedFor(a, arguments)
    ensures StartsWith(ParamHeader(a.name), PARAM_PREFIX)
  {
    var i :| 0 <= i < |anns| && anns[i] == a;
    DeclaredRenderedOnce(anns, arguments, i);
    ParamHeaderIsParam(a.name);
  }

  lemma AgreeMeansEach(pairs: Headers, norm: string -> string, anns: seq<Annotation>, arguments: Json)
    requires DistinctNames(anns) && ParamsAgree(pairs, norm, anns, arguments)
    ensures OnlyDeclared(pairs, norm, anns) && EachAgrees(pairs, norm, anns, arguments)
  {
    forall h | StartsWith(h, PARAM_PREFIX) && Values(pairs, norm, h) != []
      ensures Declared(anns, h)
    {
      if !Declared(anns, h) {
        UndeclaredNotRendered(anns, arguments, h);
      }
    }
    forall i | 0 <= i < |anns|
      ensures OneAgrees(pairs, norm, anns[i], arguments)
    {
      assert anns[i] in anns;
      RenderedOf(anns, arguments, anns[i]);
    }
  }

  lemma EachMeansAgree(pairs: Headers, norm: string -> string, anns: seq<Annotation>, arguments: Json)
    requires DistinctNames(anns) && OnlyDeclared(pairs, norm, anns) && EachAgrees(pairs, norm, anns, arguments)
    ensures ParamsAgree(pairs, norm, anns, arguments)
  {
    forall a | a in anns
      ensures OneAgrees(pairs, norm, a, arguments)
    {
      var i :| 0 <= i < |anns| && anns[i] == a;
    }
    forall h | StartsWith(h, PARAM_PREFIX)
      ensures Values(pairs, norm, h) == Values(ParamHeaders(anns, arguments), Lower, h)
    {
      if Declared(anns, h) {
        var a :| a in anns && ParamHeader(a.name) == h;
        RenderedOf(anns, arguments, a);
      } else {
        UndeclaredNotRendered(anns, arguments, h);
      }
    }
  }

  lemma AgreeIffEach(pairs: Headers, norm: string -> string, schema: Json, arguments: Json)
    ensures DistinctNames(Annotations(schema))
    ensures var anns := Annotations(schema);
            ParamsAgree(pairs, norm, anns, arguments) <==>
              OnlyDeclared(pairs, norm, anns) && EachAgrees(pairs, norm, anns, arguments)
  {
    var anns := Annotations(schema);
    if schema.Obj? {
      ValidAreDistinct(Walk(schema, [], 0));
    }
    if ParamsAgree(pairs, norm, anns, arguments) {
      AgreeMeansEach(pairs, norm, anns, arguments);
    } else if OnlyDeclared(pairs, norm, anns) && EachAgrees(pairs, norm, anns, arguments) {
      EachMeansAgree(pairs, norm, anns, arguments);
    }
  }

  /** `present - declared` is empty. */
  method CheckDeclared(m: Multimap, anns: seq<Annotation>, ghost pairs: Headers, ghost norm: string -> string)
    returns (ok: bool)
    requires IsMultimap(m, pairs, norm)
    ensures ok <==> OnlyDeclared(pairs, norm, anns)
  {
    if h :| h in m && StartsWith(h, PARAM_PREFIX) && forall i :: 0 <= i < |anns| ==> ParamHeader(anns[i].name) != h {
      SingleIs(m, pairs, norm, h);
      return false;
    }
    forall h | StartsWith(h, PARAM_PREFIX) && Values(pairs, norm, h) != []
      ensures Declared(anns, h)
    {
      SingleIs(m, pairs, norm, h);
      var i :| 0 <= i < |anns| && ParamHeader(anns[i].name) == h;
      assert anns[i] in anns;
    }
    return true;
  }

  /** Mcp-Param-*: every header present is declared, and every annotation agrees. */
  method CheckParams(m: Multimap, schema: Json, arguments: Json, ghost pairs: Headers, ghost norm: string -> string)
    returns (ok: bool)
    requires IsMultimap(m, pairs, norm)
    ensures ok <==> ParamsAgree(pairs, norm, Annotations(schema), arguments)
  {
    AgreeIffEach(pairs, norm, schema, arguments);
    var expected := XMcpParamHeaders(schema, arguments, true);
    if expected.None? {
      return false;
    }
    var anns := XMcpHeaderAnnotations(schema);
    ok := CheckDeclared(m, anns, pairs, norm);
    if ok {
      ok := CheckEach(m, anns, arguments, expected.value, pairs, norm);
    }
  }

  /** The checking loop. */
  method CheckEach(m: Multimap, anns: seq<Annotation>, arguments: Json, expected: Headers,
                   ghost pairs: Headers, ghost norm: string -> string) returns (ok: bool)
    requires IsMultimap(m, pairs, norm) && DistinctNames(anns)
    requires expected == ParamHeaders(anns, arguments)
    ensures ok <==> EachAgrees(pairs, norm, anns, arguments)
  {
    for i := 0 to |anns|
      invariant AgreeUpTo(pairs, norm, anns, arguments, i)
    {
      ok := CheckOne(m, anns, i, arguments, expected, pairs, norm);
      if !ok {
        return;
      }
      AgreeOneMore(pairs, norm, anns, arguments, i);
    }
    return true;
  }

  ghost predicate AgreeUpTo(pairs: Headers, norm: string -> string, anns: seq<Annotation>, arguments: Json, n: nat)
    requires n <= |anns|
  {
    forall i :: 0 <= i < n ==> OneAgrees(pairs, norm, anns[i], arguments)
  }

  lemma AgreeOneMore(pairs: Headers, norm: string -> string, anns: seq<Annotation>, arguments: Json, n: nat)
    requires n < |anns| && AgreeUpTo(pairs, norm, anns, arguments, n) && OneAgrees(pairs, norm, anns[n], arguments)
    ensures AgreeUpTo(pairs, norm, anns, arguments, n + 1)
  {
  }

  /** One round of the checking loop. */
  method CheckOne(m: Multimap, anns: seq<Annotation>, i: nat, arguments: Json, expected: Headers,
                  ghost pairs: Headers, ghost norm: string -> string) returns (ok: bool)
    requires IsMultimap(m, pairs, norm) && i < |anns| && DistinctNames(anns)
    requires expected == ParamHeaders(anns, arguments)
    ensures ok <==> OneAgrees(pairs, norm, anns[i], arguments)
  {
    var header := ParamHeader(anns[i].name);
    DeclaredRenderedOnce(anns, arguments, i);
    SingleIs(m, pairs, norm, header);
    var raw := Single(m, header);
    if raw.Err? {
      return false;
    }
    var want := Values(expected, Lower, header);
    if want == [] {
      if !ArgAt(arguments, anns[i].path).Null? {
        return false;
      }
      return raw.value.None?;
    }
    return raw.value == Some(want[0]);
  }

  // ---------------------------------------------------------------------------
  // The whole validation
  // ---------------------------------------------------------------------------

  ghost predicate ParamsPass(pairs: Headers, norm: string -> string, body: Json, rpcMethod: string, schemas: Schemas) {
    if rpcMethod != "tools/call" || schemas.None? then
      forall h :: StartsWith(h, PARAM_PREFIX) ==> Values(pairs, norm, h) == []
    else
      match SchemaFor(body, rpcMethod, schemas)
      case None => false
      case Some(schema) => ParamsAgree(pairs, norm, Annotations(schema), ArgumentsOf(body))
  }

  method CheckParamPart(m: Multimap, body: Json, rpcMethod: string, schemas: Schemas,
                        ghost pairs: Headers, ghost norm: string -> string)
    returns (r: Option<Reason>)
    requires IsMultimap(m, pairs, norm)
    ensures r.None? <==> ParamsPass(pairs, norm, body, rpcMethod, schemas)
    ensures r == Some(UnknownTool) <==> !ToolKnown(body, rpcMethod, schemas)
    ensures r.Some? ==> r.value == Mismatch || r.value == UnknownTool
  {
    if rpcMethod != "tools/call" || schemas.None? {
      if h :| h in m && StartsWith(h, PARAM_PREFIX) {
        SingleIs(m, pairs, norm, h);
        return Some(Mismatch);
      }
      forall h | StartsWith(h, PARAM_PREFIX)
        ensures Values(pairs, norm, h) == []
      {
        SingleIs(m, pairs, norm, h);
      }
      return None;
    }
    var schema := SchemaFor(body, rpcMethod, schemas);
    if schema.None? {
      return Some(UnknownTool);
    }
    var ok := CheckParams(m, schema.value, ArgumentsOf(body), pairs, norm);
    return if ok then None else Some(Mismatch);
  }

  /** The request matches its body, header by header. */
  ghost predicate Matches(pairs: Headers, norm: string -> string, body: Json, rpcMethod: string, version: string,
                          schemas: Schemas)
  {
    && Values(pairs, norm, VERSION_HEADER) == [version]
    && Values(pairs, norm, METHOD_HEADER) == [rpcMethod]
    && NameGiven(body, rpcMethod)
    && NameAgrees(pairs, norm, body, rpcMethod)
    && ParamsPass(pairs, norm, body, rpcMethod, schemas)
  }

  /** What the body renders under a routing name. */
  function RenderedUnder(body: Json, rpcMethod: string, version: string, schemas: Schemas, h: string): seq<string> {
    if h == VERSION_HEADER then [version]
    else if h == METHOD_HEADER then [rpcMethod]
    else if h == NAME_HEADER then NameValues(rpcMethod, ParamsOf(body))
    else Values(ParamPart(body, rpcMethod, schemas), Lower, h)
  }

  ghost predicate AgreesByName(pairs: Headers, norm: string -> string, body: Json, rpcMethod: string,
                               version: string, schemas: Schemas)
  {
    forall h :: Routing(h) ==> Values(pairs, norm, h) == RenderedUnder(body, rpcMethod, version, schemas, h)
  }

  lemma AgreesIsByName(pairs: Headers, norm: string -> string, body: Json, rpcMethod: string, version: string,
                       schemas: Schemas)
    ensures Agrees(pairs, norm, Rendering(body, rpcMethod, version, schemas))
            <==> AgreesByName(pairs, norm, body, rpcMethod, version, schemas)
  {
    forall h | Routing(h)
      ensures Values(Rendering(body, rpcMethod, version, schemas), Lower, h)
           == RenderedUnder(body, rpcMethod, version, schemas, h)
    {
      RenderingValues(body, rpcMethod, version, schemas, h);
    }
  }

  lemma RoutingNames()
    ensures Routing(VERSION_HEADER) && Routing(METHOD_HEADER) && Routing(NAME_HEADER)
    ensures forall h :: StartsWith(h, PARAM_PREFIX) ==> Routing(h) && h !in {VERSION_HEADER, METHOD_HEADER, NAME_HEADER}
  {
    forall h | StartsWith(h, PARAM_PREFIX)
      ensures Routing(h) && h !in {VERSION_HEADER, METHOD_HEADER, NAME_HEADER}
    {
      ParamIsNotFixed(h);
    }
  }

  /** Agreement on all routing headers is agreement on each kind of them. */
  lemma AgreesInParts(pairs: Headers, norm: string -> string, body: Json, rpcMethod: string, version: string,
                      schemas: Schemas)
    ensures Mirrorable(body, rpcMethod, schemas) && Agrees(pairs, norm, Rendering(body, rpcMethod, version, schemas))
            <==> Matches(pairs, norm, body, rpcMethod, version, schemas)
  {
    AgreesIsByName(pairs, norm, body, rpcMethod, version, schemas);
    RoutingNames();
    if Matches(pairs, norm, body, rpcMethod, version, schemas) {
      MatchesAgrees(pairs, norm, body, rpcMethod, version, schemas);
    } else if AgreesByName(pairs, norm, body, rpcMethod, version, schemas) && Mirrorable(body, rpcMethod, schemas) {
      AgreesMatches(pairs, norm, body, rpcMethod, version, schemas);
    }
  }

  lemma MatchesAgrees(pairs: Headers, norm: string -> string, body: Json, rpcMethod: string, version: string,
                      schemas: Schemas)
    requires Matches(pairs, norm, body, rpcMethod, version, schemas)
    ensures AgreesByName(pairs, norm, body, rpcMethod, version, schemas) && Mirrorable(body, rpcMethod, schemas)
  {
    forall h | StartsWith(h, PARAM_PREFIX)
      ensures Values(pairs, norm, h) == Values(ParamPart(body, rpcMethod, schemas), Lower, h)
    {
    }
  }

  lemma AgreesMatches(pairs: Headers, norm: string -> string, body: Json, rpcMethod: string, version: string,
                      schemas: Schemas)
    requires AgreesByName(pairs, norm, body, rpcMethod, version, schemas) && Mirrorable(body, rpcMethod, schemas)
    ensures Matches(pairs, norm, body, rpcMethod, version, schemas)
  {
    RoutingNames();
    forall h | StartsWith(h, PARAM_PREFIX)
      ensures Values(pairs, norm, h) == Values(ParamPart(body, rpcMethod, schemas), Lower, h)
    {
    }
  }

  /** One header that differs is a disagreement, whatever else is wrong with the body. */
  lemma DisagreesInPart(pairs: Headers, norm: string -> string, body: Json, rpcMethod: string, version: string,
                        schemas: Schemas)
    requires || Values(pairs, norm, VERSION_HEADER) != [version]
             || Values(pairs, norm, METHOD_HEADER) != [rpcMethod]
             || !NameAgrees(pairs, norm, body, rpcMethod)
             || (ToolKnown(body, rpcMethod, schemas) && !ParamsPass(pairs, norm, body, rpcMethod, schemas))
    ensures || !ArgumentsRenderable(body, rpcMethod, schemas)
            || !Agrees(pairs, norm, Rendering(body, rpcMethod, version, schemas))
  {
    AgreesIsByName(pairs, norm, body, rpcMethod, version, schemas);
    RoutingNames();
  }

  /** The gate found the request fit for a legacy handler, or says why not. */
  function GateOr(gate: Option<Reason>, fallback: Reason): Reason {
    match gate
    case Some(e) => e
    case None => fallback
  }

  /** Exactly the acceptable requests are accepted; a rejection tells the truth about the
      request; and the two reasons on which a caller falls back to a legacy handler are
      given exactly when the request is fit for one. */
  method Validate(pairs: Headers, norm: string -> string, body: Json, supported: set<string>, schemas: Schemas)
    returns (r: Result<string, Reason>)
    ensures r.Ok? <==> Acceptable(pairs, norm, body, supported, schemas)
    ensures r.Ok? ==> VersionOf(body) == Some(Str(r.value))
    ensures r.Err? ==> Justified(r.error, pairs, norm, body, supported, schemas)
    ensures r == Err(Batch) <==> AliasFree(pairs, norm) && body.Arr? && NoModernRouting(pairs, norm)
    ensures r == Err(MissingMeta) <==>
              && AliasFree(pairs, norm) && HasMethod(body) && MetaWellFormed(body) && VersionOf(body).None?
              && NoModernRouting(pairs, norm)
  {
    var hdrs := HeaderMultimap(pairs, norm);
    if hdrs.None? {
      return Err(Mismatch);
    }
    var m := hdrs.value;
    if body.Arr? {
      var gate := LegacyGate(m, supported, pairs, norm);
      return Err(GateOr(gate, Batch));
    }
    if body.Obj? && Get(body, "method").None? {
      return Err(NotARequest);
    }
    if !HasMethod(body) {
      return Err(InvalidRequest);
    }
    r := ValidateRequest(m, body, supported, schemas, pairs, norm);
  }

  lemma SeveralVersions(pairs: Headers, norm: string -> string, body: Json, supported: set<string>, schemas: Schemas)
    requires HasMethod(body) && |Values(pairs, norm, VERSION_HEADER)| > 1
    ensures !Acceptable(pairs, norm, body, supported, schemas) && !NoModernRouting(pairs, norm)
    ensures Disagrees(pairs, norm, body, schemas)
  {
    match (Get(body, "method"), VersionOf(body))
    case (Some(Str(m)), Some(Str(v))) =>
      DisagreesInPart(pairs, norm, body, m, v, schemas);
    case _ =>
  }

  /** The body is a request: look at its `_meta`. */
  method ValidateRequest(m: Multimap, body: Json, supported: set<string>, schemas: Schemas,
                         ghost pairs: Headers, ghost norm: string -> string)
    returns (r: Result<string, Reason>)
    requires IsMultimap(m, pairs, norm) && AliasFree(pairs, norm) && HasMethod(body)
    ensures r.Ok? <==> Acceptable(pairs, norm, body, supported, schemas)
    ensures r.Ok? ==> VersionOf(body) == Some(Str(r.value))
    ensures r.Err? ==> r.error != Batch && Justified(r.error, pairs, norm, body, supported, schemas)
    ensures MetaWellFormed(body) && VersionOf(body).None? && NoModernRouting(pairs, norm) ==> r == Err(MissingMeta)
  {
    var headerVersion := Single(m, VERSION_HEADER);
    SingleIs(m, pairs, norm, VERSION_HEADER);
    if headerVersion.Err? {
      SeveralVersions(pairs, norm, body, supported, schemas);
      return Err(Mismatch);
    }
    if !MetaWellFormed(body) {
      return Err(InvalidMeta);
    }
    var version := VersionOf(body);
    if version.None? {
      var gate := LegacyGate(m, supported, pairs, norm);
      return Err(GateOr(gate, MissingMeta));
    }
    r := ValidateModern(m, body, Get(body, "method").value, version.value, headerVersion.value, supported, schemas,
                        pairs, norm);
  }

  lemma WrongHeader(pairs: Headers, norm: string -> string, body: Json, rpcMethod: Json, version: Json,
                    supported: set<string>, schemas: Schemas)
    requires Get(body, "method") == Some(rpcMethod) && IsText(rpcMethod)
    requires VersionOf(body) == Some(version) && IsText(version)
    requires || (forall v :: Str(v) == version ==> Values(pairs, norm, VERSION_HEADER) != [v])
             || (forall v :: Str(v) == rpcMethod ==> Values(pairs, norm, METHOD_HEADER) != [v])
    ensures Disagrees(pairs, norm, body, schemas) && !Acceptable(pairs, norm, body, supported, schemas)
  {
    if rpcMethod.Str? && version.Str? {
      DisagreesInPart(pairs, norm, body, rpcMethod.s, version.s, schemas);
    }
  }

  /** The body names a version: everything else must agree with it. */
  method ValidateModern(m: Multimap, body: Json, rpcMethod: Json, version: Json, headerVersion: Option<string>,
                        supported: set<string>, schemas: Schemas, ghost pairs: Headers, ghost norm: string -> string)
    returns (r: Result<string, Reason>)
    requires IsMultimap(m, pairs, norm) && AliasFree(pairs, norm) && HasMethod(body)
    requires Get(body, "method") == Some(rpcMethod) && VersionOf(body) == Some(version) && IsText(version)
    requires Single(m, VERSION_HEADER) == Ok(headerVersion)
    ensures r.Ok? <==> Acceptable(pairs, norm, body, supported, schemas)
    ensures r.Ok? ==> version == Str(r.value)
    ensures r.Err? ==> r.error !in {Batch, MissingMeta} && Justified(r.error, pairs, norm, body, supported, schemas)
  {
    SingleIs(m, pairs, norm, VERSION_HEADER);
    SingleIs(m, pairs, norm, METHOD_HEADER);
    if headerVersion.None? || Str(headerVersion.value) != version {
      WrongHeader(pairs, norm, body, rpcMethod, version, supported, schemas);
      return Err(Mismatch);
    }
    if version.s !in supported {
      return Err(UnsupportedVersion);
    }
    var headerMethod := Single(m, METHOD_HEADER);
    if headerMethod.Err? || headerMethod.value.None? || Str(headerMethod.value.value) != rpcMethod {
      WrongHeader(pairs, norm, body, rpcMethod, version, supported, schemas);
      return Err(Mismatch);
    }
    var bad := ValidateTarget(m, body, rpcMethod.s, version.s, schemas, pairs, norm);
    return if bad.Some? then Err(bad.value) else Ok(version.s);
  }

  /** Version and method agree: the name and the parameters must too. */
  method ValidateTarget(m: Multimap, body: Json, rpcMethod: string, version: string, schemas: Schemas,
                        ghost pairs: Headers, ghost norm: string -> string)
    returns (r: Option<Reason>)
    requires IsMultimap(m, pairs, norm)
    requires Values(pairs, norm, VERSION_HEADER) == [version] && Values(pairs, norm, METHOD_HEADER) == [rpcMethod]
    ensures r.None? <==>
              Mirrorable(body, rpcMethod, schemas) && Agrees(pairs, norm, Rendering(body, rpcMethod, version, schemas))
    ensures r.Some? ==>
              match r.value
              case InvalidName => !NameGiven(body, rpcMethod)
              case UnknownTool => !ToolKnown(body, rpcMethod, schemas)
              case Mismatch => || !ArgumentsRenderable(body, rpcMethod, schemas)
                               || !Agrees(pairs, norm, Rendering(body, rpcMethod, version, schemas))
              case _ => false
  {
    AgreesInParts(pairs, norm, body, rpcMethod, version, schemas);
    r := CheckName(m, body, rpcMethod, pairs, norm);
    if r.None? {
      r := CheckParamPart(m, body, rpcMethod, schemas, pairs, norm);
    }
    if r == Some(Mismatch) {
      DisagreesInPart(pairs, norm, body, rpcMethod, version, schemas);
    }
  }
}
