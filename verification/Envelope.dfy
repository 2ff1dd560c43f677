/** Validating a request envelope: the routing headers must be exactly what the body
    renders (cosai_mcp/middleware/request_meta.py:99-314, not in WSGI mode). */
module Envelope {
  import opened Wrappers
  import opened Json
  import opened Protocol

  /** The reasons a request is rejected for; -32020 reasons name the header. */
  datatype Reason =
    | Mismatch
    | UnsupportedVersion
    | Batch
    | NotARequest
    | InvalidRequest
    | InvalidMeta
    | MissingMeta
    | InvalidName
    | UnknownTool

  function Code(r: Reason): int {
    match r
    case Mismatch => -32020
    case UnsupportedVersion => -32022
    case Batch => -32600
    case NotARequest => -32600
    case InvalidRequest => -32600
    case InvalidMeta => -32602
    case MissingMeta => -32602
    case InvalidName => -32602
    case UnknownTool => -32602
  }

  // ---------------------------------------------------------------------------
  // Header multimap
  // ---------------------------------------------------------------------------

  predicate StartsWith(s: string, p: string) { |p| <= |s| && s[..|p|] == p }

  predicate Routing(name: string) {
    name in {VERSION_HEADER, METHOD_HEADER, NAME_HEADER} || StartsWith(name, PARAM_PREFIX)
  }

  function Dashed(s: string): string {
    seq(|s|, i requires 0 <= i < |s| => if s[i] == '_' then '-' else s[i])
  }

  /** What a proxy might take the name for. */
  function Alias(name: string): string {
    var d := Dashed(name);
    if StartsWith(d, "http-") then d[5..] else d
  }

  predicate IsAlias(name: string) { Alias(name) != name && Routing(Alias(name)) }

  /** All values carried under `name`, in order. `norm` is strip-and-lower. */
  function Values(pairs: Headers, norm: string -> string, name: string): seq<string> {
    if pairs == [] then []
    else
      var last := pairs[|pairs| - 1];
      Values(pairs[..|pairs| - 1], norm, name) + (if norm(last.0) == name then [last.1] else [])
  }

  ghost predicate AliasFree(pairs: Headers, norm: string -> string) {
    forall p :: p in pairs ==> !IsAlias(norm(p.0))
  }

  type Multimap = map<string, seq<string>>

  ghost predicate IsMultimap(m: Multimap, pairs: Headers, norm: string -> string) {
    forall name :: Values(pairs, norm, name) == (if name in m then m[name] else [])
                   && (name in m ==> m[name] != [])
  }

  /** `out.setdefault(name, []).append(value)` */
  function Append(m: Multimap, name: string, value: string): Multimap {
    m[name := (if name in m then m[name] else []) + [value]]
  }

  /** `None`: some name only aliases a routing header. */
  method HeaderMultimap(pairs: Headers, norm: string -> string) returns (m: Option<Multimap>)
    ensures m.Some? <==> AliasFree(pairs, norm)
    ensures m.Some? ==> IsMultimap(m.value, pairs, norm)
  {
    var acc: Multimap := map[];
    for i := 0 to |pairs|
      invariant AliasFree(pairs[..i], norm)
      invariant IsMultimap(acc, pairs[..i], norm)
    {
      var name := norm(pairs[i].0);
      AliasSnoc(pairs, i, norm);
      if IsAlias(name) {
        return None;
      }
      MultimapSnoc(acc, pairs, i, norm);
      acc := Append(acc, name, pairs[i].1);
    }
    assert pairs[..|pairs|] == pairs;
    return Some(acc);
  }

  lemma AliasSnoc(pairs: Headers, i: nat, norm: string -> string)
    requires i < |pairs|
    ensures AliasFree(pairs[..i + 1], norm) <==> AliasFree(pairs[..i], norm) && !IsAlias(norm(pairs[i].0))
    ensures AliasFree(pairs, norm) ==> AliasFree(pairs[..i + 1], norm)
  {
    assert pairs[..i + 1] == pairs[..i] + [pairs[i]];
    forall p | p in pairs[..i + 1]
      ensures p in pairs
    {
    }
  }

  lemma ValuesSnoc(pairs: Headers, i: nat, norm: string -> string, h: string)
    requires i < |pairs|
    ensures Values(pairs[..i + 1], norm, h) ==
            Values(pairs[..i], norm, h) + (if norm(pairs[i].0) == h then [pairs[i].1] else [])
  {
    assert pairs[..i + 1][..i] == pairs[..i] && pairs[..i + 1][i] == pairs[i];
  }

  lemma MultimapSnoc(m: Multimap, pairs: Headers, i: nat, norm: string -> string)
    requires i < |pairs| && IsMultimap(m, pairs[..i], norm)
    ensures IsMultimap(Append(m, norm(pairs[i].0), pairs[i].1), pairs[..i + 1], norm)
  {
    var name := norm(pairs[i].0);
    var m' := Append(m, name, pairs[i].1);
    forall h
      ensures Values(pairs[..i + 1], norm, h) == (if h in m' then m'[h] else []) && (h in m' ==> m'[h] != [])
    {
      ValuesSnoc(pairs, i, norm, h);
      assert Values(pairs[..i], norm, h) == (if h in m then m[h] else []);
    }
  }

  // ---------------------------------------------------------------------------
  // Parts of the body
  // ---------------------------------------------------------------------------

  /** `params` if it is a mapping, else an empty one. */
  function ParamsOf(body: Json): Json {
    match Get(body, "params")
    case Some(Obj(ms)) => Obj(ms)
    case _ => Obj([])
  }

  /** `None` when `_meta` is absent or null. */
  function MetaOf(body: Json): Option<Json> {
    match Get(ParamsOf(body), "_meta")
    case None => None
    case Some(Null) => None
    case Some(v) => Some(v)
  }

  function VersionOf(body: Json): Option<Json> {
    match MetaOf(body)
    case None => None
    case Some(m) => Get(m, META_PROTOCOL_VERSION)
  }

  function ArgumentsOf(body: Json): Json {
    match Get(ParamsOf(body), "arguments")
    case None => Null
    case Some(v) => v
  }

  type Schemas = Option<map<string, Json>>

  /** The schema that says which arguments are mirrored, on a tool call. */
  function SchemaFor(body: Json, rpcMethod: string, schemas: Schemas): Option<Json> {
    if rpcMethod != "tools/call" || schemas.None? then None
    else
      match Get(ParamsOf(body), "name")
      case Some(Str(tool)) => if tool in schemas.value then Some(schemas.value[tool]) else None
      case _ => None
  }

  /** Every header that a client renders for this body. */
  function Rendering(body: Json, rpcMethod: string, version: string, schemas: Schemas): Headers {
    MetadataHeaders(rpcMethod, ParamsOf(body), version)
    + match SchemaFor(body, rpcMethod, schemas)
      case Some(schema) => ParamHeaders(Annotations(schema), ArgumentsOf(body))
      case None => []
  }

  predicate NameGiven(body: Json, rpcMethod: string) {
    NameField(rpcMethod).Some? ==>
      NameFor(rpcMethod, ParamsOf(body)).Some? && NameFor(rpcMethod, ParamsOf(body)).value.Str?
  }

  predicate ToolKnown(body: Json, rpcMethod: string, schemas: Schemas) {
    rpcMethod == "tools/call" && schemas.Some? ==> SchemaFor(body, rpcMethod, schemas).Some?
  }

  /** Every argument that is mirrored into a header is null or can be rendered. */
  ghost predicate ArgumentsRenderable(body: Json, rpcMethod: string, schemas: Schemas) {
    match SchemaFor(body, rpcMethod, schemas)
    case None => true
    case Some(schema) =>
      forall a :: a in Annotations(schema) ==>
        ArgAt(ArgumentsOf(body), a.path).Null? || Render(ArgAt(ArgumentsOf(body), a.path)).Text?
  }

  /** The body is one that can be mirrored into headers. */
  ghost predicate Mirrorable(body: Json, rpcMethod: string, schemas: Schemas) {
    && NameGiven(body, rpcMethod)
    && ToolKnown(body, rpcMethod, schemas)
    && ArgumentsRenderable(body, rpcMethod, schemas)
  }

  /** On every routing name the request carries exactly the rendered values. */
  ghost predicate Agrees(pairs: Headers, norm: string -> string, rendered: Headers) {
    forall h :: Routing(h) ==> Values(pairs, norm, h) == Values(rendered, Lower, h)
  }

  ghost predicate Acceptable(pairs: Headers, norm: string -> string, body: Json, supported: set<string>,
                             schemas: Schemas)
  {
    && AliasFree(pairs, norm)
    && body.Obj?
    && (match (Get(body, "method"), VersionOf(body))
        case (Some(Str(m)), Some(Str(v))) =>
          v in supported && Mirrorable(body, m, schemas) && Agrees(pairs, norm, Rendering(body, m, v, schemas))
        case _ => false)
  }

  // ---------------------------------------------------------------------------
  // Why a request is rejected
  // ---------------------------------------------------------------------------

  predicate HasMethod(body: Json) {
    body.Obj? && Get(body, "method").Some? && IsText(Get(body, "method").value)
  }

  /** `_meta` is absent, or a mapping whose version is absent or text. */
  predicate MetaWellFormed(body: Json) {
    && (MetaOf(body).None? || MetaOf(body).value.Obj?)
    && (VersionOf(body).None? || IsText(VersionOf(body).value))
  }

  /** What a legacy handler may be shown: no modern routing header, and at most one
      protocol version, a legacy one. */
  ghost predicate NoModernRouting(pairs: Headers, norm: string -> string) {
    && (forall h :: Routing(h) && h != VERSION_HEADER ==> Values(pairs, norm, h) == [])
    && (Values(pairs, norm, VERSION_HEADER) == []
        || exists v :: v in LEGACY_VERSIONS && Values(pairs, norm, VERSION_HEADER) == [v])
  }

  /** The routing headers are not the ones that the body renders, or it cannot render them. */
  ghost predicate Disagrees(pairs: Headers, norm: string -> string, body: Json, schemas: Schemas) {
    match (Get(body, "method"), VersionOf(body))
    case (Some(Str(m)), Some(Str(v))) =>
      !ArgumentsRenderable(body, m, schemas) || !Agrees(pairs, norm, Rendering(body, m, v, schemas))
    case _ => true
  }

  /** What the rejection for each reason tells about the request. */
  ghost predicate Justified(e: Reason, pairs: Headers, norm: string -> string, body: Json, supported: set<string>,
                            schemas: Schemas)
  {
    match e
    case Batch => body.Arr? && NoModernRouting(pairs, norm)
    case NotARequest => body.Obj? && Get(body, "method").None?
    case InvalidRequest => !body.Arr? && !HasMethod(body)
    case InvalidMeta => HasMethod(body) && !MetaWellFormed(body)
    case MissingMeta => HasMethod(body) && MetaWellFormed(body) && VersionOf(body).None? && NoModernRouting(pairs, norm)
    case UnsupportedVersion =>
      exists v :: v !in supported && Values(pairs, norm, VERSION_HEADER) == [v]
    case InvalidName =>
      HasMethod(body) && Get(body, "method").value.Str? && !NameGiven(body, Get(body, "method").value.s)
    case UnknownTool =>
      HasMethod(body) && Get(body, "method").value.Str? && !ToolKnown(body, Get(body, "method").value.s, schemas)
    case Mismatch =>
      || !AliasFree(pairs, norm)
      || ((body.Arr? || VersionOf(body).None?) && !NoModernRouting(pairs, norm))
      || (HasMethod(body) && Disagrees(pairs, norm, body, schemas))
  }
}
