/** What one side renders, the other side accepts: exactly when no rendered header name
    holds an underscore or ends in a line feed
    (cosai_mcp/protocol.py:165-270; cosai_mcp/middleware/request_meta.py:106-143, 189-314). */
module EnvelopeRoundTrip {
  import opened Wrappers
  import opened Json
  import opened Protocol
  import opened Envelope
  import opened EnvelopeCheck
  import HeaderCodec

  function TrimLineFeed(s: string): string {
    if s != "" && s[|s| - 1] == '\n' then s[..|s| - 1] else s
  }

  /** What strip-and-lower does to the names that can be rendered. */
  ghost predicate NormalisesTokens(norm: string -> string) {
    forall s :: IsToken(s) ==> norm(s) == Lower(TrimLineFeed(s))
  }

  function StripEnd(s: string): string {
    if s != "" && HeaderCodec.IsSpace(s[|s| - 1]) then StripEnd(s[..|s| - 1]) else s
  }

  function StripStart(s: string): string {
    if s != "" && HeaderCodec.IsSpace(s[0]) then StripStart(s[1..]) else s
  }

  /** `strip().lower()`, with letters outside ASCII left alone. */
  function StripLower(s: string): string { Lower(StripEnd(StripStart(s))) }

  lemma TokenStrips(s: string)
    requires IsToken(s)
    ensures StripEnd(StripStart(s)) == TrimLineFeed(s)
  {
    var t := TrimLineFeed(s);
    assert TokenChar(t[0]) && t[0] == s[0] && TokenChar(t[|t| - 1]);
    assert StripStart(s) == s;
    assert StripEnd(t) == t;
  }

  /** So it is one of the functions that the results are about. */
  lemma StripLowerNormalises()
    ensures NormalisesTokens(StripLower)
  {
    forall s | IsToken(s)
      ensures StripLower(s) == Lower(TrimLineFeed(s))
    {
      TokenStrips(s);
    }
  }

  /** A name that reaches the other side as it was sent. */
  predicate Portable(name: string) {
    '_' !in name && TrimLineFeed(name) == name
  }

  ghost predicate AllPortable(headers: Headers) {
    forall p :: p in headers ==> Portable(p.0)
  }

  predicate McpToken(name: string) {
    IsToken(name) && Routing(Lower(name)) && StartsWith(Lower(name), "mcp-")
  }

  ghost predicate McpTokens(headers: Headers) {
    forall p :: p in headers ==> McpToken(p.0)
  }

  // ---------------------------------------------------------------------------
  // Rendered names
  // ---------------------------------------------------------------------------

  lemma VersionName()
    ensures McpToken(HEADER_PROTOCOL_VERSION) && Portable(HEADER_PROTOCOL_VERSION)
  {
    LowerNames();
    assert AllTokenChars(HEADER_PROTOCOL_VERSION);
    assert VERSION_HEADER[..4] == "mcp-";
  }

  lemma MethodName()
    ensures McpToken(HEADER_METHOD) && Portable(HEADER_METHOD)
  {
    LowerNames();
    assert AllTokenChars(HEADER_METHOD);
    assert METHOD_HEADER[..4] == "mcp-";
  }

  lemma NameName()
    ensures McpToken(HEADER_NAME) && Portable(HEADER_NAME)
  {
    LowerNames();
    assert AllTokenChars(HEADER_NAME);
    assert NAME_HEADER[..4] == "mcp-";
  }

  lemma MetadataIsMcpTokens(rpcMethod: string, params: Json, version: string)
    ensures McpTokens(MetadataHeaders(rpcMethod, params, version))
    ensures AllPortable(MetadataHeaders(rpcMethod, params, version))
  {
    VersionName();
    MethodName();
    NameName();
  }

  lemma TokenCharsConcat(a: string, b: string)
    requires AllTokenChars(a) && AllTokenChars(b)
    ensures AllTokenChars(a + b)
  {
  }

  lemma PrefixedToken(name: string)
    requires IsToken(name)
    ensures IsToken(HEADER_PARAM_PREFIX + name)
  {
    var h := HEADER_PARAM_PREFIX + name;
    assert AllTokenChars(HEADER_PARAM_PREFIX);
    if AllTokenChars(name) {
      TokenCharsConcat(HEADER_PARAM_PREFIX, name);
    } else {
      var t := name[..|name| - 1];
      TokenCharsConcat(HEADER_PARAM_PREFIX, t);
      assert h[..|h| - 1] == HEADER_PARAM_PREFIX + t;
    }
  }

  lemma ParamNameIsToken(name: string)
    requires IsToken(name)
    ensures McpToken(HEADER_PARAM_PREFIX + name)
  {
    PrefixedToken(name);
    ParamHeaderIsParam(name);
    assert (PARAM_PREFIX + Lower(name))[..4] == PARAM_PREFIX[..4] == "mcp-";
  }

  /** A rendered parameter header carries the name of some annotation. */
  lemma ParamPartNames(body: Json, rpcMethod: string, schemas: Schemas, p: (string, string))
    requires p in ParamPart(body, rpcMethod, schemas)
    ensures McpToken(p.0) && |p.0| > |PARAM_PREFIX|
  {
    var schema := SchemaFor(body, rpcMethod, schemas).value;
    OnlyParamHeaders(Annotations(schema), ArgumentsOf(body), p);
    var a :| a in Annotations(schema) && p.0 == HEADER_PARAM_PREFIX + a.name;
    AnnotationPath(schema, a);
    ParamNameIsToken(a.name);
  }

  lemma RenderingIsMcpTokens(body: Json, rpcMethod: string, version: string, schemas: Schemas)
    ensures McpTokens(Rendering(body, rpcMethod, version, schemas))
  {
    MetadataIsMcpTokens(rpcMethod, ParamsOf(body), version);
    forall p | p in ParamPart(body, rpcMethod, schemas)
      ensures McpToken(p.0)
    {
      ParamPartNames(body, rpcMethod, schemas, p);
    }
  }

  // ---------------------------------------------------------------------------
  // Portable names arrive; others are taken for something else
  // ---------------------------------------------------------------------------

  lemma {:induction false} SameValues(headers: Headers, norm: string -> string, h: string)
    requires forall p :: p in headers ==> norm(p.0) == Lower(p.0)
    ensures Values(headers, norm, h) == Values(headers, Lower, h)
  {
    if headers != [] {
      assert headers[|headers| - 1] in headers;
      SameValues(headers[..|headers| - 1], norm, h);
    }
  }

  predicate Extra(p: (string, string), norm: string -> string, h: string) {
    TrimLineFeed(p.0) != p.0 && norm(p.0) == h
  }

  lemma OneArrival(name: string, norm: string -> string, h: string)
    requires IsToken(name) && NormalisesTokens(norm) && TrimLineFeed(h) == h
    ensures Lower(name) == h ==> norm(name) == h && TrimLineFeed(name) == name
  {
    assert name != "" && name[|name| - 1] == '\n' ==> Lower(name)[|name| - 1] == '\n';
  }

  /** Without a final line feed nothing is lost: the receiver sees at least as many copies. */
  lemma {:induction false} NothingLost(headers: Headers, norm: string -> string, h: string)
    requires McpTokens(headers) && NormalisesTokens(norm) && TrimLineFeed(h) == h
    ensures |Values(headers, norm, h)| >= |Values(headers, Lower, h)|
  {
    if headers != [] {
      var n := |headers| - 1;
      assert headers[n] in headers;
      OneArrival(headers[n].0, norm, h);
      NothingLost(headers[..n], norm, h);
    }
  }

  lemma LastArrival(headers: Headers, norm: string -> string, h: string)
    requires McpTokens(headers) && NormalisesTokens(norm) && TrimLineFeed(h) == h && headers != []
    ensures var n := |headers| - 1;
            && |Values(headers, Lower, h)|
               == |Values(headers[..n], Lower, h)| + (if Lower(headers[n].0) == h then 1 else 0)
            && |Values(headers, norm, h)|
               == |Values(headers[..n], norm, h)| + (if norm(headers[n].0) == h then 1 else 0)
            && (Lower(headers[n].0) == h ==> norm(headers[n].0) == h && TrimLineFeed(headers[n].0) == headers[n].0)
  {
    assert headers[|headers| - 1] in headers;
    OneArrival(headers[|headers| - 1].0, norm, h);
  }

  /** A name with a final line feed adds a copy the sender never rendered. */
  lemma {:induction false} ExtraCopy(headers: Headers, norm: string -> string, h: string, p: (string, string))
    requires McpTokens(headers) && NormalisesTokens(norm) && TrimLineFeed(h) == h
    requires p in headers && Extra(p, norm, h)
    ensures |Values(headers, norm, h)| > |Values(headers, Lower, h)|
  {
    var n := |headers| - 1;
    assert headers == headers[..n] + [headers[n]];
    LastArrival(headers, norm, h);
    if p == headers[n] {
      NothingLost(headers[..n], norm, h);
    } else {
      ExtraCopy(headers[..n], norm, h, p);
    }
  }

  lemma TokenTrimmedOnce(s: string)
    requires IsToken(s)
    ensures TrimLineFeed(Lower(TrimLineFeed(s))) == Lower(TrimLineFeed(s))
  {
  }

  lemma UnderscoreIsAlias(name: string)
    requires StartsWith(name, "mcp-")
    ensures '_' !in name ==> !IsAlias(name)
    ensures '_' in name && Routing(name) ==> IsAlias(name)
  {
    var d := Dashed(name);
    assert name[0] == name[..4][0] == 'm';
    assert d[0] == 'm';
    assert !StartsWith(d, "http-");
    if '_' !in name {
      assert d == name;
    } else {
      var i :| 0 <= i < |name| && name[i] == '_';
      assert d[i] == '-' != name[i];
      if Routing(name) {
        UnderscoreIsParam(name);
        assert d[..|PARAM_PREFIX|] == name[..|PARAM_PREFIX|];
      }
    }
  }

  lemma UnderscoreIsParam(name: string)
    requires Routing(name) && '_' in name
    ensures StartsWith(name, PARAM_PREFIX)
    ensures forall i :: 0 <= i < |PARAM_PREFIX| ==> name[i] != '_'
  {
    assert '_' !in VERSION_HEADER && '_' !in METHOD_HEADER && '_' !in NAME_HEADER;
    assert forall i :: 0 <= i < |PARAM_PREFIX| ==> name[i] == name[..|PARAM_PREFIX|][i] == PARAM_PREFIX[i];
  }

  lemma LowerKeepsUnderscore(s: string)
    ensures '_' in Lower(s) <==> '_' in s
  {
    if '_' in s {
      var i :| 0 <= i < |s| && s[i] == '_';
      assert Lower(s)[i] == '_';
    }
    if '_' in Lower(s) {
      var i :| 0 <= i < |s| && Lower(s)[i] == '_';
      assert s[i] == '_';
    }
  }

  /** A rendered name arrives without its line feed, and is still a routing name unless
      nothing of it is left. */
  lemma ArrivesAs(name: string, norm: string -> string)
    requires NormalisesTokens(norm) && McpToken(name)
    ensures norm(name) == Lower(TrimLineFeed(name))
    ensures StartsWith(norm(name), "mcp-")
    ensures '_' in name <==> '_' in norm(name)
    ensures |norm(name)| >= |PARAM_PREFIX| || Portable(name) ==> Routing(norm(name))
  {
    var t := TrimLineFeed(name);
    LowerKeepsUnderscore(t);
    assert Lower(t) == Lower(name)[..|t|];
    assert '_' in name ==> '_' in t by {
      if '_' in name {
        var i :| 0 <= i < |name| && name[i] == '_';
        assert t[i] == '_';
      }
    }
    assert Lower(name)[3] == Lower(name)[..4][3] == '-';
    if t != name {
      assert Lower(name)[|name| - 1] == '\n';
      assert VERSION_HEADER[|VERSION_HEADER| - 1] == 'n' && METHOD_HEADER[|METHOD_HEADER| - 1] == 'd'
          && NAME_HEADER[|NAME_HEADER| - 1] == 'e';
      assert StartsWith(Lower(name), PARAM_PREFIX);
      if |t| >= |PARAM_PREFIX| {
        assert Lower(t)[..|PARAM_PREFIX|] == Lower(name)[..|PARAM_PREFIX|];
      }
    }
  }

  lemma PortableArrives(headers: Headers, norm: string -> string)
    requires McpTokens(headers) && NormalisesTokens(norm) && AllPortable(headers)
    ensures AliasFree(headers, norm) && Agrees(headers, norm, headers)
  {
    forall p | p in headers
      ensures norm(p.0) == Lower(p.0) && !IsAlias(norm(p.0))
    {
      ArrivesAs(p.0, norm);
      UnderscoreIsAlias(norm(p.0));
    }
    forall h
      ensures Values(headers, norm, h) == Values(headers, Lower, h)
    {
      SameValues(headers, norm, h);
    }
  }

  lemma NonPortableIsRefused(headers: Headers, norm: string -> string, p: (string, string))
    requires McpTokens(headers) && NormalisesTokens(norm) && p in headers && !Portable(p.0)
    requires |p.0| > |PARAM_PREFIX|
    ensures !(AliasFree(headers, norm) && Agrees(headers, norm, headers))
  {
    var h := norm(p.0);
    ArrivesAs(p.0, norm);
    if '_' in p.0 {
      UnderscoreIsAlias(h);
    } else {
      TokenTrimmedOnce(p.0);
      ExtraCopy(headers, norm, h, p);
    }
  }

  lemma NonPortableIsParam(body: Json, rpcMethod: string, version: string, schemas: Schemas, p: (string, string))
    requires p in Rendering(body, rpcMethod, version, schemas) && !Portable(p.0)
    ensures |p.0| > |PARAM_PREFIX|
  {
    MetadataIsMcpTokens(rpcMethod, ParamsOf(body), version);
    assert p in ParamPart(body, rpcMethod, schemas);
    ParamPartNames(body, rpcMethod, schemas, p);
  }

  /** The two sides agree. A well-formed request sent with exactly the headers that its
      body renders is accepted, except when the tool's schema declares a parameter
      header whose name has an underscore (the receiver takes it for an alias) or a
      final line feed (which the token pattern lets through), and then it never is. */
  lemma RenderedIsAcceptedIff(body: Json, rpcMethod: string, version: string, schemas: Schemas,
                              supported: set<string>, norm: string -> string)
    requires Get(body, "method") == Some(Str(rpcMethod)) && VersionOf(body) == Some(Str(version))
    requires version in supported && Mirrorable(body, rpcMethod, schemas) && NormalisesTokens(norm)
    ensures var sent := Rendering(body, rpcMethod, version, schemas);
            Acceptable(sent, norm, body, supported, schemas) <==> AllPortable(sent)
  {
    var sent := Rendering(body, rpcMethod, version, schemas);
    RenderingIsMcpTokens(body, rpcMethod, version, schemas);
    if AllPortable(sent) {
      PortableArrives(sent, norm);
    } else {
      var p :| p in sent && !Portable(p.0);
      NonPortableIsParam(body, rpcMethod, version, schemas, p);
      NonPortableIsRefused(sent, norm, p);
    }
  }

  // ---------------------------------------------------------------------------
  // A schema that makes every call with its argument unacceptable
  // ---------------------------------------------------------------------------

  function UserIdSchema(): Json {
    Obj([("properties", Obj([("user", UserIdProperty())]))])
  }

  function CallWith(user: string): Json {
    Obj([("method", Str("tools/call")),
         ("params", Obj([("name", Str("lookup")),
                         ("arguments", Obj([("user", Str(user))])),
                         ("_meta", Obj([(META_PROTOCOL_VERSION, Str("2026-07-28"))]))]))])
  }

  function UserIdProperty(): Json {
    Obj([("type", Str("string")), ("x-mcp-header", Str("user_id"))])
  }

  lemma UserIdPropertyParts()
    ensures Get(UserIdProperty(), "type") == Some(Str("string"))
    ensures Get(UserIdProperty(), "x-mcp-header") == Some(Str("user_id"))
    ensures Get(UserIdProperty(), "properties") == None
  {
    var ms := UserIdProperty().members;
    assert ms[..1] == [("type", Str("string"))];
    assert ms[..1][..0] == [];
  }

  lemma UserIdIsWalked()
    ensures Walk(UserIdSchema(), [], 0) == [Annotation("user_id", ["user"], Some(Str("string")))]
  {
    var props := [("user", UserIdProperty())];
    assert Get(UserIdSchema(), "properties") == Some(Obj(props));
    UserIdPropertyParts();
    assert Walk(UserIdProperty(), ["user"], 1) == [];
    assert props[..0] == [] && [] + ["user"] == ["user"];
  }

  lemma UserIdIsAnnotated()
    ensures Annotations(UserIdSchema()) == [Annotation("user_id", ["user"], Some(Str("string")))]
  {
    UserIdIsWalked();
    var anns := [Annotation("user_id", ["user"], Some(Str("string")))];
    assert AllTokenChars("user_id");
    assert anns[..0] == [];
  }

  lemma CallParts(user: string)
    ensures var params := ParamsOf(CallWith(user));
            && Get(CallWith(user), "method") == Some(Str("tools/call"))
            && Get(params, "name") == Some(Str("lookup"))
            && ArgumentsOf(CallWith(user)) == Obj([("user", Str(user))])
            && VersionOf(CallWith(user)) == Some(Str("2026-07-28"))
  {
    var body := CallWith(user);
    assert body.members[..1] == [("method", Str("tools/call"))];
    var ms := body.members[1].1.members;
    assert ms[..2] == [ms[0], ms[1]];
    assert ms[..2][..1] == [ms[0]];
  }

  function UserIdHeader(user: string): (string, string) {
    (HEADER_PARAM_PREFIX + "user_id", HeaderCodec.EncodeValue(user))
  }

  lemma UserIdIsSent(user: string)
    ensures ParamHeaders(Annotations(UserIdSchema()), Obj([("user", Str(user))])) == [UserIdHeader(user)]
    ensures !Portable(UserIdHeader(user).0)
  {
    UserIdIsAnnotated();
    var arguments := Obj([("user", Str(user))]);
    var anns := Annotations(UserIdSchema());
    assert ["user"][1..] == [];
    assert ArgAt(arguments, anns[0].path) == Str(user);
    assert anns[..0] == [];
    assert UserIdHeader(user).0[|HEADER_PARAM_PREFIX| + 4] == '_';
  }

  /** Whoever the user, the call that mirrors `user` into Mcp-Param-user_id is refused. */
  lemma UserIdIsNeverAccepted(user: string, norm: string -> string)
    requires NormalisesTokens(norm)
    ensures var schemas := Some(map["lookup" := UserIdSchema()]);
            var sent := Rendering(CallWith(user), "tools/call", "2026-07-28", schemas);
            !Acceptable(sent, norm, CallWith(user), {"2026-07-28"}, schemas)
  {
    var schemas := Some(map["lookup" := UserIdSchema()]);
    var sent := Rendering(CallWith(user), "tools/call", "2026-07-28", schemas);
    CallParts(user);
    UserIdIsSent(user);
    RenderingIsMcpTokens(CallWith(user), "tools/call", "2026-07-28", schemas);
    assert sent[|sent| - 1] == UserIdHeader(user);
    NonPortableIsParam(CallWith(user), "tools/call", "2026-07-28", schemas, UserIdHeader(user));
    NonPortableIsRefused(sent, norm, UserIdHeader(user));
  }
}
