/** Rendering the routing headers of a modern request from its body
    (cosai_mcp/protocol.py:51-79, 153-270). */
module Protocol {
  import opened Wrappers
  import opened Json
  import HeaderCodec

  const HEADER_PROTOCOL_VERSION := "MCP-Protocol-Version"
  const HEADER_METHOD := "Mcp-Method"
  const HEADER_NAME := "Mcp-Name"
  const HEADER_PARAM_PREFIX := "Mcp-Param-"
  const VERSION_HEADER := "mcp-protocol-version"
  const METHOD_HEADER := "mcp-method"
  const NAME_HEADER := "mcp-name"
  const PARAM_PREFIX := "mcp-param-"
  const META_PROTOCOL_VERSION := "io.modelcontextprotocol/protocolVersion"
  const LEGACY_VERSIONS: set<string> := {"2025-11-25", "2025-06-18", "2025-03-26", "2024-11-05"}
  const JS_SAFE_INT := 9007199254740991
  const MAX_SCHEMA_WALK := 16

  type Headers = seq<(string, string)>

  // ---------------------------------------------------------------------------
  // Text
  // ---------------------------------------------------------------------------

  function LowerChar(c: char): char {
    if 'A' <= c <= 'Z' then (c as int + 32) as char else c
  }

  /** `str.lower` on ASCII, the only names that are rendered. */
  function Lower(s: string): (r: string)
    ensures |r| == |s|
    ensures forall i :: 0 <= i < |s| ==> r[i] == LowerChar(s[i])
  {
    seq(|s|, i requires 0 <= i < |s| => LowerChar(s[i]))
  }

  function Decimal(n: nat): string {
    if n < 10 then [(48 + n) as char] else Decimal(n / 10) + [(48 + n % 10) as char]
  }

  function IntText(n: int): string {
    if n < 0 then "-" + Decimal(-n) else Decimal(n)
  }

  // ---------------------------------------------------------------------------
  // Mcp-Name
  // ---------------------------------------------------------------------------

  function NameField(rpcMethod: string): Option<string> {
    if rpcMethod == "tools/call" || rpcMethod == "prompts/get" then Some("name")
    else if rpcMethod == "resources/read" then Some("uri")
    else None
  }

  /** The body value mirrored into Mcp-Name: a string, or nothing. */
  function NameFor(rpcMethod: string, params: Json): Option<Json> {
    match NameField(rpcMethod)
    case None => None
    case Some(f) =>
      var v := Get(params, f);
      if v.Some? && IsText(v.value) then v else None
  }

  /** The headers every modern request carries. */
  function MetadataHeaders(rpcMethod: string, params: Json, version: string): Headers {
    [(HEADER_PROTOCOL_VERSION, version), (HEADER_METHOD, rpcMethod)]
    + match NameFor(rpcMethod, params)
      case Some(Str(s)) => [(HEADER_NAME, HeaderCodec.EncodeValue(s))]
      case _ => []
  }

  // ---------------------------------------------------------------------------
  // Mcp-Param-*
  // ---------------------------------------------------------------------------

  datatype Rendered = Absent | Text(text: string) | Unencodable

  function Render(v: Json): Rendered {
    match v
    case Bool(b) => Text(if b then "true" else "false")
    case Int(n) => if -JS_SAFE_INT <= n <= JS_SAFE_INT then Text(IntText(n)) else Absent
    case Str(s) => Text(HeaderCodec.EncodeValue(s))
    case IllFormed(_, _) => Unencodable
    case _ => Absent
  }

  /** The argument at a property path; `Null` when any step is missing. */
  function ArgAt(node: Json, path: seq<string>): Json
    decreases |path|
  {
    if path == [] then node
    else
      match Get(node, path[0])
      case None => Null
      case Some(v) => ArgAt(v, path[1..])
  }

  datatype Annotation = Annotation(name: string, path: seq<string>, kind: Option<Json>)

  function WalkProperties(props: seq<(string, Json)>, path: seq<string>, depth: nat): seq<Annotation>
    requires depth <= MAX_SCHEMA_WALK
    decreases MAX_SCHEMA_WALK - depth, props
  {
    if props == [] then []
    else
      var n := |props| - 1;
      var (key, sub) := props[n];
      WalkProperties(props[..n], path, depth)
      + (if !sub.Obj? then []
         else
           (match Get(sub, "x-mcp-header")
            case Some(Str(ann)) => [Annotation(ann, path + [key], Get(sub, "type"))]
            case _ => [])
           + (if depth + 1 > MAX_SCHEMA_WALK then [] else Walk(sub, path + [key], depth + 1)))
  }

  /** Annotations reachable through `properties` chains, at most 16 deep. */
  function Walk(schema: Json, path: seq<string>, depth: nat): seq<Annotation>
    requires depth <= MAX_SCHEMA_WALK
    decreases MAX_SCHEMA_WALK - depth, schema, 0
  {
    match Get(schema, "properties")
    case Some(Obj(props)) => WalkProperties(props, path, depth)
    case _ => []
  }

  predicate TokenChar(c: char) {
    || '0' <= c <= '9' || 'A' <= c <= 'Z' || 'a' <= c <= 'z'
    || c in {'!', '#', '$', '%', '&', '\'', '*', '+', '-', '.', '^', '_', '`', '|', '~'}
  }

  predicate AllTokenChars(s: string) { forall i :: 0 <= i < |s| ==> TokenChar(s[i]) }

  /** The pattern's `$` also matches before one final line feed. */
  predicate IsToken(s: string) {
    s != "" && (AllTokenChars(s) || (|s| > 1 && s[|s| - 1] == '\n' && AllTokenChars(s[..|s| - 1])))
  }

  function NotNull(items: seq<Json>): seq<Json> {
    if items == [] then []
    else NotNull(items[..|items| - 1]) + (if items[|items| - 1] == Str("null") then [] else [items[|items| - 1]])
  }

  predicate Primitive(kind: Option<Json>) {
    match kind
    case Some(Str(s)) => s in {"string", "integer", "boolean"}
    case Some(Arr(items)) =>
      var rest := NotNull(items);
      |rest| == 1 && rest[0].Str? && rest[0].s in {"string", "integer", "boolean"}
    case _ => false
  }

  /** The first annotation of each token name, if its target is primitive. */
  function Valid(anns: seq<Annotation>): seq<Annotation> {
    if anns == [] then []
    else
      var n := |anns| - 1;
      Valid(anns[..n])
      + (if IsToken(anns[n].name) && Lower(anns[n].name) !in NamesSeen(anns[..n]) && Primitive(anns[n].kind)
         then [anns[n]] else [])
  }

  /** The names the loop has met so far, in lower case: a name counts even when its
      target is not primitive. */
  function NamesSeen(anns: seq<Annotation>): set<string> {
    set i | 0 <= i < |anns| && IsToken(anns[i].name) :: Lower(anns[i].name)
  }

  function Annotations(schema: Json): seq<Annotation> {
    if schema.Obj? then Valid(Walk(schema, [], 0)) else []
  }

  /** The parameter headers, for the annotations whose argument can be rendered. */
  function ParamHeaders(anns: seq<Annotation>, arguments: Json): Headers {
    if anns == [] then []
    else
      var n := |anns| - 1;
      ParamHeaders(anns[..n], arguments)
      + match Render(ArgAt(arguments, anns[n].path))
        case Text(t) => [(HEADER_PARAM_PREFIX + anns[n].name, t)]
        case _ => []
  }

  // ---------------------------------------------------------------------------
  // The loops
  // ---------------------------------------------------------------------------

  method ValidAnnotations(anns: seq<Annotation>) returns (valid: seq<Annotation>)
    ensures valid == Valid(anns)
  {
    valid := [];
    var seen: set<string> := {};
    for i := 0 to |anns|
      invariant valid == Valid(anns[..i]) && seen == NamesSeen(anns[..i])
    {
      var a := anns[i];
      assert anns[..i + 1][..i] == anns[..i] && anns[..i + 1][i] == a;
      SeenSnoc(anns, i);
      var lowered := Lower(a.name);
      if !IsToken(a.name) || lowered in seen {
        continue;
      }
      seen := seen + {lowered};
      if Primitive(a.kind) {
        valid := valid + [a];
      }
    }
    assert anns[..|anns|] == anns;
  }

  lemma SeenSnoc(anns: seq<Annotation>, i: nat)
    requires i < |anns|
    ensures NamesSeen(anns[..i + 1]) ==
            NamesSeen(anns[..i]) + (if IsToken(anns[i].name) then {Lower(anns[i].name)} else {})
  {
    var a, b := anns[..i], anns[..i + 1];
    forall x | x in NamesSeen(a)
      ensures x in NamesSeen(b)
    {
      var j :| 0 <= j < |a| && IsToken(a[j].name) && x == Lower(a[j].name);
      assert b[j] == a[j];
    }
    forall x | x in NamesSeen(b)
      ensures x in NamesSeen(a) || (IsToken(anns[i].name) && x == Lower(anns[i].name))
    {
      var j :| 0 <= j < |b| && IsToken(b[j].name) && x == Lower(b[j].name);
      if j < i {
        assert a[j] == b[j];
      }
    }
    if IsToken(anns[i].name) {
      assert b[i] == anns[i];
    }
  }

  /** No schema that is not a mapping has annotations. */
  method XMcpHeaderAnnotations(schema: Json) returns (valid: seq<Annotation>)
    ensures valid == Annotations(schema)
  {
    if !schema.Obj? {
      return [];
    }
    valid := ValidAnnotations(Walk(schema, [], 0));
  }

  /** `strict`: a value that cannot be encoded is an error instead of no header. */
  method XMcpParamHeaders(schema: Json, arguments: Json, strict: bool) returns (r: Option<Headers>)
    ensures r.Some? ==> r.value == ParamHeaders(Annotations(schema), arguments)
    ensures r.None? <==> strict && arguments.Obj?
                         && exists a :: a in Annotations(schema) && ArgAt(arguments, a.path).IllFormed?
  {
    hide Annotations, ArgAt;
    if !arguments.Obj? {
      NothingToRender(schema, arguments);
      return Some([]);
    }
    var anns := XMcpHeaderAnnotations(schema);
    var headers: Headers := [];
    for i := 0 to |anns|
      invariant headers == ParamHeaders(anns[..i], arguments)
      invariant strict ==> forall j :: 0 <= j < i ==> !ArgAt(arguments, anns[j].path).IllFormed?
    {
      assert anns[..i + 1][..i] == anns[..i];
      match Render(ArgAt(arguments, anns[i].path))
      case Text(t) =>
        headers := headers + [(HEADER_PARAM_PREFIX + anns[i].name, t)];
      case Unencodable =>
        if strict {
          assert anns[i] in anns;
          return None;
        }
      case Absent =>
    }
    assert anns[..|anns|] == anns;
    return Some(headers);
  }

  // ---------------------------------------------------------------------------
  // Facts about what is rendered
  // ---------------------------------------------------------------------------

  lemma {:induction false} WalkedPathsAreProper(props: seq<(string, Json)>, path: seq<string>, depth: nat,
                                                a: Annotation)
    requires depth <= MAX_SCHEMA_WALK && a in WalkProperties(props, path, depth)
    ensures a.path != []
    decreases MAX_SCHEMA_WALK - depth, props
  {
    var n := |props| - 1;
    var (key, sub) := props[n];
    if a in WalkProperties(props[..n], path, depth) {
      WalkedPathsAreProper(props[..n], path, depth, a);
    } else if depth < MAX_SCHEMA_WALK && a in Walk(sub, path + [key], depth + 1) {
      WalkedPathsAreProper(Get(sub, "properties").value.members, path + [key], depth + 1, a);
    }
  }

  lemma {:induction false} ValidIsSubset(anns: seq<Annotation>, a: Annotation)
    requires a in Valid(anns)
    ensures a in anns && IsToken(a.name) && Lower(a.name) in NamesSeen(anns)
  {
    var n := |anns| - 1;
    if a in Valid(anns[..n]) {
      ValidIsSubset(anns[..n], a);
    }
    assert a in anns;
    var i :| 0 <= i < |anns| && anns[i] == a;
  }

  lemma AnnotationPath(schema: Json, a: Annotation)
    requires a in Annotations(schema)
    ensures a.path != [] && IsToken(a.name)
  {
    ValidIsSubset(Walk(schema, [], 0), a);
    WalkedPathsAreProper(Get(schema, "properties").value.members, [], 0, a);
  }

  lemma NothingToRender(schema: Json, arguments: Json)
    requires !arguments.Obj?
    ensures ParamHeaders(Annotations(schema), arguments) == []
  {
    forall a | a in Annotations(schema)
      ensures Render(ArgAt(arguments, a.path)).Absent?
    {
      AnnotationPath(schema, a);
    }
    AbsentRendersNothing(Annotations(schema), arguments);
  }

  lemma {:induction false} AbsentRendersNothing(anns: seq<Annotation>, arguments: Json)
    requires forall a :: a in anns ==> Render(ArgAt(arguments, a.path)).Absent?
    ensures ParamHeaders(anns, arguments) == []
  {
    if anns != [] {
      assert anns[|anns| - 1] in anns;
      AbsentRendersNothing(anns[..|anns| - 1], arguments);
    }
  }

  ghost predicate DistinctNames(anns: seq<Annotation>) {
    forall i, j :: 0 <= i < j < |anns| ==> Lower(anns[i].name) != Lower(anns[j].name)
  }

  /** Valid annotations have case-insensitively different names. */
  lemma {:induction false} ValidAreDistinct(anns: seq<Annotation>)
    ensures DistinctNames(Valid(anns))
  {
    if anns != [] {
      var n := |anns| - 1;
      ValidAreDistinct(anns[..n]);
      forall a | a in Valid(anns[..n])
        ensures Lower(a.name) in NamesSeen(anns[..n])
      {
        ValidIsSubset(anns[..n], a);
      }
    }
  }
}
