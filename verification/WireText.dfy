/** The text that a request carries in its routing headers
    (cosai_mcp/protocol.py:128-150, 165-226; cosai_mcp/middleware/request_meta.py:223-314):
    what a client renders from the body, and so what a server accepts, value by value. */
module WireText {
  import opened Wrappers
  import opened Json
  import opened Protocol
  import opened Envelope
  import opened EnvelopeCheck
  import HeaderCodec

  // ---------------------------------------------------------------------------
  // Decimal text
  // ---------------------------------------------------------------------------

  predicate AllDigits(t: string) { forall i :: 0 <= i < |t| ==> '0' <= t[i] <= '9' }

  function ReadDigits(t: string): int {
    if t == "" then 0 else ReadDigits(t[..|t| - 1]) * 10 + (t[|t| - 1] as int - '0' as int)
  }

  /** No sign but a minus, no leading zero, and no negative zero. */
  predicate Canonical(t: string) {
    var digits := if t != "" && t[0] == '-' then t[1..] else t;
    digits != "" && AllDigits(digits) && (digits[0] == '0' ==> t == "0")
  }

  function ReadInt(t: string): int {
    if t != "" && t[0] == '-' then -ReadDigits(t[1..]) else ReadDigits(t)
  }

  lemma {:induction false} DecimalReads(n: nat)
    ensures ReadDigits(Decimal(n)) == n && AllDigits(Decimal(n)) && Decimal(n) != ""
    ensures Decimal(n)[0] == '0' ==> n == 0 && Decimal(n) == "0"
  {
    if n < 10 {
      assert Decimal(n)[..0] == "";
    } else {
      DecimalReads(n / 10);
      var t := Decimal(n);
      assert t[..|t| - 1] == Decimal(n / 10) && t[|t| - 1] == (48 + n % 10) as char;
    }
  }

  lemma {:induction false} IntReads(n: int)
    ensures Canonical(IntText(n)) && ReadInt(IntText(n)) == n
  {
    if n < 0 {
      DecimalReads(-n);
      assert IntText(n)[1..] == Decimal(-n);
    } else {
      DecimalReads(n);
      assert '0' <= Decimal(n)[0] <= '9';
    }
  }

  // ---------------------------------------------------------------------------
  // Strings
  // ---------------------------------------------------------------------------

  /** Visible ASCII and tabs, no blank at either end, not in the form of a wrapped value. */
  predicate PlainText(s: string) {
    && (forall i :: 0 <= i < |s| ==> s[i] == '\t' || ' ' <= s[i] <= '~')
    && (s != "" ==> s[0] !in {' ', '\t'} && s[|s| - 1] !in {' ', '\t'})
    && !(|s| >= 9 && s[..9] == "=?base64?" && s[|s| - 2..] == "?=")
  }

  lemma {:induction false} PlainIsSafe(s: string)
    ensures HeaderCodec.Safe(s) <==> PlainText(s)
  {
    assert HeaderCodec.AllVisible(s) <==> forall i :: 0 <= i < |s| ==> s[i] == '\t' || ' ' <= s[i] <= '~';
    if HeaderCodec.AllVisible(s) && s != "" {
      BlankIffSpace(s[0]);
      BlankIffSpace(s[|s| - 1]);
    }
  }

  lemma {:induction false} BlankIffSpace(c: char)
    requires c == '\t' || ' ' <= c <= '~'
    ensures HeaderCodec.IsSpace(c) <==> c in {' ', '\t'}
  {
  }

  /** `x` carries the string `s`: plain text as it is, any other wrapped, and it is decoded to `s`. */
  predicate CarriesText(x: string, s: string) {
    && HeaderCodec.DecodeValue(x) == Some(s)
    && (if PlainText(s) then x == s else |x| >= 11 && x[..9] == "=?base64?" && x[|x| - 2..] == "?=")
  }

  lemma {:induction false} EncodedCarries(s: string)
    ensures CarriesText(HeaderCodec.EncodeValue(s), s)
  {
    PlainIsSafe(s);
    HeaderCodec.RoundTrip(s);
  }

  // ---------------------------------------------------------------------------
  // Arguments
  // ---------------------------------------------------------------------------

  /** The one value that a parameter header has for argument `v`, or none. */
  predicate CarriesArgument(values: seq<string>, v: Json) {
    match v
    case Bool(b) => values == [if b then "true" else "false"]
    case Int(n) =>
      if -9007199254740991 <= n <= 9007199254740991
      then |values| == 1 && Canonical(values[0]) && ReadInt(values[0]) == n
      else values == []
    case Str(s) => |values| == 1 && CarriesText(values[0], s)
    case _ => values == []
  }

  lemma {:induction false} RenderedCarries(a: Annotation, arguments: Json)
    ensures CarriesArgument(RenderedFor(a, arguments), ArgAt(arguments, a.path))
  {
    match ArgAt(arguments, a.path)
    case Int(n) => IntReads(n);
    case Str(s) => EncodedCarries(s);
    case _ =>
  }

  /** `v` is found by following `path` from `node`, one key at a time. */
  ghost predicate FoundAt(node: Json, path: seq<string>, v: Json)
    decreases |path|
  {
    if path == [] then node == v
    else exists next :: Get(node, path[0]) == Some(next) && FoundAt(next, path[1..], v)
  }

  /** The argument of an annotation is what its path leads to, and null where it leads nowhere. */
  lemma {:induction false} ArgumentIsFound(node: Json, path: seq<string>, v: Json)
    ensures FoundAt(node, path, v) ==> ArgAt(node, path) == v
    ensures FoundAt(node, path, ArgAt(node, path)) || (ArgAt(node, path) == Null && !FoundAt(node, path, v))
    decreases |path|
  {
    if path != [] && Get(node, path[0]).Some? {
      ArgumentIsFound(Get(node, path[0]).value, path[1..], v);
    }
  }

  /** The values rendered under the header of a declared annotation: those of the argument
      that its path leads to. */
  lemma {:induction false} RenderedText(schema: Json, arguments: Json, a: Annotation)
    requires a in Annotations(schema)
    ensures CarriesArgument(Values(ParamHeaders(Annotations(schema), arguments), Lower, Lower("Mcp-Param-" + a.name)),
                            ArgAt(arguments, a.path))
  {
    hide CarriesArgument, ArgAt, Annotations, Values, ParamHeaders;
    AnnotationsDistinct(schema);
    RenderedOf(Annotations(schema), arguments, a);
    RenderedCarries(a, arguments);
  }

  lemma {:induction false} AnnotationsDistinct(schema: Json)
    ensures DistinctNames(Annotations(schema))
  {
    if schema.Obj? {
      ValidAreDistinct(Walk(schema, [], 0));
    }
  }

  // ---------------------------------------------------------------------------
  // Accepted requests
  // ---------------------------------------------------------------------------

  /** The arguments of a call, null when it has none. */
  function ArgumentsIn(params: Json): Json {
    if Get(params, "arguments") == None then Null else Get(params, "arguments").value
  }

  ghost predicate CarriesName(values: seq<string>, params: Json, field: string) {
    exists s :: Get(params, field) == Some(Str(s)) && |values| == 1 && CarriesText(values[0], s)
  }

  /** The Mcp-Name values that go with a method. */
  ghost predicate NameFits(values: seq<string>, rpcMethod: string, params: Json) {
    if rpcMethod == "tools/call" || rpcMethod == "prompts/get" then CarriesName(values, params, "name")
    else if rpcMethod == "resources/read" then CarriesName(values, params, "uri")
    else values == []
  }

  /** Every parameter header is that of an annotation of the tool's schema and carries its
      argument; an annotation without header has no argument. */
  ghost predicate ParametersFit(pairs: Headers, norm: string -> string, schema: Json, arguments: Json) {
    && (forall a :: a in Annotations(schema) ==>
          var values := Values(pairs, norm, Lower("Mcp-Param-" + a.name));
          CarriesArgument(values, ArgAt(arguments, a.path)) && (values == [] ==> ArgAt(arguments, a.path) == Null))
    && (forall h :: StartsWith(h, "mcp-param-") && Values(pairs, norm, h) != [] ==>
          exists a :: a in Annotations(schema) && h == Lower("Mcp-Param-" + a.name))
  }

  /** The Mcp-Param-* headers of a request that calls `rpcMethod`. */
  ghost predicate ParamHeadersFit(pairs: Headers, norm: string -> string, rpcMethod: string, params: Json,
                                  schemas: Schemas)
  {
    if rpcMethod == "tools/call" && schemas.Some?
    then exists tool :: Get(params, "name") == Some(Str(tool)) && tool in schemas.value
           && ParametersFit(pairs, norm, schemas.value[tool], ArgumentsIn(params))
    else forall h :: StartsWith(h, "mcp-param-") ==> Values(pairs, norm, h) == []
  }

  /** Every accepted request says in its headers what its body says: its version, its
      method, its name and its annotated arguments, each once, and nothing else. */
  lemma {:induction false} AcceptedRequestCarries(pairs: Headers, norm: string -> string, body: Json,
                                                  supported: set<string>, schemas: Schemas)
    returns (rpcMethod: string, version: string, params: Json, meta: Json)
    requires Acceptable(pairs, norm, body, supported, schemas)
    ensures Get(body, "method") == Some(Str(rpcMethod))
    ensures Get(body, "params") == Some(params) && Get(params, "_meta") == Some(meta)
    ensures Get(meta, "io.modelcontextprotocol/protocolVersion") == Some(Str(version)) && version in supported
    ensures Values(pairs, norm, "mcp-protocol-version") == [version]
    ensures Values(pairs, norm, "mcp-method") == [rpcMethod]
    ensures NameFits(Values(pairs, norm, "mcp-name"), rpcMethod, params)
    ensures ParamHeadersFit(pairs, norm, rpcMethod, params, schemas)
  {
    hide NameFits, ParamHeadersFit, NameGiven, NameAgrees, ParamsPass, Mirrorable, Agrees, Values;
    rpcMethod, version := Get(body, "method").value.s, VersionOf(body).value.s;
    params, meta := ParamsOf(body), MetaOf(body).value;
    AgreesInParts(pairs, norm, body, rpcMethod, version, schemas);
    VersionWasFound(body, params, meta, version);
    NameCarried(pairs, norm, body, rpcMethod);
    ParametersCarried(pairs, norm, body, rpcMethod, schemas);
  }

  lemma {:induction false} VersionWasFound(body: Json, params: Json, meta: Json, v: string)
    requires VersionOf(body) == Some(Str(v)) && params == ParamsOf(body) && MetaOf(body) == Some(meta)
    ensures Get(body, "params") == Some(params) && Get(params, "_meta") == Some(meta)
    ensures Get(meta, "io.modelcontextprotocol/protocolVersion") == Some(Str(v))
  {
  }

  lemma {:induction false} NameCarried(pairs: Headers, norm: string -> string, body: Json, rpcMethod: string)
    requires NameGiven(body, rpcMethod) && NameAgrees(pairs, norm, body, rpcMethod)
    ensures NameFits(Values(pairs, norm, "mcp-name"), rpcMethod, ParamsOf(body))
  {
    match NameFor(rpcMethod, ParamsOf(body))
    case Some(Str(s)) => EncodedCarries(s);
    case _ =>
  }

  lemma {:induction false} ParametersCarried(pairs: Headers, norm: string -> string, body: Json, rpcMethod: string,
                                             schemas: Schemas)
    requires ParamsPass(pairs, norm, body, rpcMethod, schemas)
    ensures ParamHeadersFit(pairs, norm, rpcMethod, ParamsOf(body), schemas)
  {
    if rpcMethod == "tools/call" && schemas.Some? {
      var schema := SchemaFor(body, rpcMethod, schemas).value;
      AgreeIffEach(pairs, norm, schema, ArgumentsOf(body));
      EachFits(pairs, norm, schema, ArgumentsOf(body));
    }
  }

  lemma {:induction false} EachFits(pairs: Headers, norm: string -> string, schema: Json, arguments: Json)
    requires OnlyDeclared(pairs, norm, Annotations(schema)) && EachAgrees(pairs, norm, Annotations(schema), arguments)
    ensures ParametersFit(pairs, norm, schema, arguments)
  {
    hide CarriesArgument, ArgAt, Annotations, Values;
    var anns := Annotations(schema);
    forall a | a in anns
      ensures CarriesArgument(Values(pairs, norm, Lower("Mcp-Param-" + a.name)), ArgAt(arguments, a.path))
      ensures Values(pairs, norm, Lower("Mcp-Param-" + a.name)) == [] ==> ArgAt(arguments, a.path) == Null
    {
      var i :| 0 <= i < |anns| && anns[i] == a;
      assert OneAgrees(pairs, norm, anns[i], arguments);
      RenderedCarries(a, arguments);
    }
  }

  // ---------------------------------------------------------------------------
  // Header names
  // ---------------------------------------------------------------------------

  predicate RoutingName(r: string) {
    r == "mcp-protocol-version" || r == "mcp-method" || r == "mcp-name" || StartsWith(r, "mcp-param-")
  }

  /** `r` is `name` with a dash for every underscore. */
  predicate DashedIs(name: string, r: string) {
    |name| == |r| && forall i :: 0 <= i < |r| ==> r[i] == if name[i] == '_' then '-' else name[i]
  }

  /** A name that a proxy might take for a routing header: one written with underscores,
      or as a CGI variable. */
  ghost predicate Disguised(name: string) {
    exists r :: RoutingName(r) && name != r && (DashedIs(name, r) || DashedIs(name, "http-" + r))
  }

  lemma {:induction false} DashedIff(name: string, r: string)
    ensures DashedIs(name, r) <==> Dashed(name) == r
  {
  }

  lemma {:induction false} RoutingIsMcp(r: string)
    requires RoutingName(r)
    ensures Routing(r) && !StartsWith(r, "http-")
  {
    assert r[0] == 'm' by {
      if StartsWith(r, "mcp-param-") {
        assert r[0] == r[..10][0];
      }
    }
    assert |r| >= 5 ==> r[..5][0] == 'm';
  }

  lemma {:induction false} AliasIff(name: string)
    ensures IsAlias(name) <==> Disguised(name)
  {
    hide RoutingName, DashedIs, Dashed;
    var d, a := Dashed(name), Alias(name);
    if IsAlias(name) {
      AliasIsRouting(name);
      DashedIff(name, a);
      DashedIff(name, "http-" + a);
      assert d == a || d == "http-" + a by {
        if StartsWith(d, "http-") {
          assert d == d[..5] + d[5..];
        }
      }
    }
    if Disguised(name) {
      var r :| RoutingName(r) && name != r && (DashedIs(name, r) || DashedIs(name, "http-" + r));
      RoutingIsMcp(r);
      DashedIff(name, r);
      DashedIff(name, "http-" + r);
      assert a == r by {
        if d != r {
          assert d[..5] == "http-" && d[5..] == r;
        }
      }
    }
  }

  lemma {:induction false} AliasIsRouting(name: string)
    requires IsAlias(name)
    ensures RoutingName(Alias(name)) && Alias(name) != name
  {
  }

  /** A request is turned away for its header names exactly when one of them is disguised. */
  lemma {:induction false} AliasFreeIff(pairs: Headers, norm: string -> string)
    ensures AliasFree(pairs, norm) <==> forall p :: p in pairs ==> !Disguised(norm(p.0))
  {
    hide IsAlias, Disguised;
    forall p | p in pairs
      ensures IsAlias(norm(p.0)) <==> Disguised(norm(p.0))
    {
      AliasIff(norm(p.0));
    }
  }

  lemma {:induction false} NoValuesIff(pairs: Headers, norm: string -> string, h: string)
    ensures Values(pairs, norm, h) == [] <==> forall p :: p in pairs ==> norm(p.0) != h
  {
    if pairs != [] {
      var n := |pairs| - 1;
      assert pairs[n] in pairs;
      NoValuesIff(pairs[..n], norm, h);
      assert forall p :: p in pairs <==> p in pairs[..n] || p == pairs[n];
    }
  }

  predicate LegacyVersion(v: string) {
    v == "2025-11-25" || v == "2025-06-18" || v == "2025-03-26" || v == "2024-11-05"
  }

  /** A legacy handler is shown exactly the requests that carry no routing header but the
      version, and that at most once, with one of the four legacy versions. */
  lemma {:induction false} LegacyShape(pairs: Headers, norm: string -> string)
    ensures NoModernRouting(pairs, norm) <==>
              && (forall p :: p in pairs && RoutingName(norm(p.0)) ==> norm(p.0) == "mcp-protocol-version")
              && var versions := Values(pairs, norm, "mcp-protocol-version");
                 versions == [] || (|versions| == 1 && LegacyVersion(versions[0]))
  {
    hide Values, RoutingName;
    forall h
      ensures Values(pairs, norm, h) == [] <==> forall p :: p in pairs ==> norm(p.0) != h
      ensures RoutingName(h) <==> Routing(h)
    {
      NoValuesIff(pairs, norm, h);
      RoutingNameIs(h);
    }
  }

  lemma {:induction false} RoutingNameIs(h: string)
    ensures RoutingName(h) <==> Routing(h)
  {
  }
}
