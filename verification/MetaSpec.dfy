/** Identity claims in `_meta` (cosai_mcp/middleware/request_meta.py:321-500). The name
    and trace-header heuristics are uninterpreted. */
module MetaSpec {
  import opened Wrappers
  import opened Json

  const PROTOCOL_KEY := "io.modelcontextprotocol/protocolVersion"
  const CLIENT_INFO := "io.modelcontextprotocol/clientInfo"
  const CLIENT_CAPABILITIES := "io.modelcontextprotocol/clientCapabilities"
  const TRACE_KEYS: set<string> := {"traceparent", "tracestate", "baggage"}
  const SELF_REPORTED: set<string> := {CLIENT_INFO, CLIENT_CAPABILITIES}
  const MAX_META_DEPTH := 4
  const MAX_SELF_REPORTED_DEPTH := 8
  const MAX_ITEMS := 256

  datatype Principal = Principal(
    subject: string, tenant: Option<string>, clientId: Option<string>, scopes: set<string>)

  /** The heuristics of meta_identity.py and the trace parser. */
  datatype Lexicon = Lexicon(
    candidates: (string, bool) -> set<string>,
    identityWord: (string, bool) -> bool,
    traceMalformed: (string, Json) -> bool,
    words: string -> set<string>,
    subjectNames: set<string>, tenantNames: set<string>, clientNames: set<string>,
    scopeNames: set<string>, adminNames: set<string>)
  {
    function IdentityNames(): set<string> {
      subjectNames + tenantNames + clientNames + scopeNames + adminNames
    }
  }

  datatype Step = Key(key: string) | Index(index: nat)

  type Path = seq<Step>

  // ---------------------------------------------------------------------------
  // One claim
  // ---------------------------------------------------------------------------

  /** The set of roles or scopes a value names, if it is a string or a list of strings. */
  function AsSet(value: Json, lex: Lexicon): Option<set<string>> {
    match value
    case Str(s) => Some(lex.words(s))
    case Arr(items) =>
      if forall i :: 0 <= i < |items| ==> items[i].Str? then
        Some(set i | 0 <= i < |items| :: items[i].s)
      else None
    case _ => None
  }

  predicate Restates(value: Json, identity: Option<string>) {
    value.Str? && identity == Some(value.s)
  }

  predicate DeniesAdmin(value: Json) {
    value == Null || value == Bool(false) || value == Int(0) || value == Str("false")
  }

  function Conflicts(names: set<string>, value: Json, p: Principal, lex: Lexicon): bool {
    if names * lex.subjectNames != {} then !Restates(value, Some(p.subject))
    else if names * lex.tenantNames != {} then !Restates(value, p.tenant)
    else if names * lex.clientNames != {} then !Restates(value, p.clientId)
    else if names * lex.scopeNames != {} then
      var claimed := AsSet(value, lex);
      claimed.None? || !(claimed.value <= p.scopes)
    else if names * lex.adminNames != {} then
      if !(value.Null? || value.Bool? || value.Int? || IsText(value)) then true
      else !DeniesAdmin(value) && "admin" !in p.scopes
    else false
  }

  /** A key and its value pass: a recognised name restates the principal, and any other
      key has no identity word unless the operator approved it. */
  predicate KeyOk(key: string, value: Json, prefixed: bool, approved: bool, p: Principal, lex: Lexicon) {
    var names := lex.candidates(key, prefixed);
    if names * lex.IdentityNames() != {} then !Conflicts(names, value, p, lex)
    else approved || !lex.identityWord(key, prefixed)
  }

  // ---------------------------------------------------------------------------
  // The walk: the paths of all offending keys
  // ---------------------------------------------------------------------------

  predicate NonEmpty(v: Json) {
    (v.Obj? && v.members != []) || (v.Arr? && v.items != [])
  }

  function BadVisit(key: string, value: Json, path: Path, depth: nat, limit: nat, approved: bool,
                    p: Principal, lex: Lexicon): seq<Path>
    decreases value, 1
  {
    if KeyOk(key, value, depth == 0, approved, p, lex)
    then BadDescend(value, path, depth, limit, p, lex)
    else [path]
  }

  function BadDescend(value: Json, path: Path, depth: nat, limit: nat, p: Principal, lex: Lexicon): seq<Path>
    decreases value, 0
  {
    if !NonEmpty(value) then []
    else if depth + 1 >= limit then [path]
    else
      match value
      case Obj(members) => BadMembers(members, path, depth, limit, p, lex)
      case Arr(items) =>
        BadItems(items, 0, path, depth, limit, p, lex) + (if |items| > MAX_ITEMS then [path] else [])
  }

  function BadMembers(members: seq<(string, Json)>, path: Path, depth: nat, limit: nat,
                      p: Principal, lex: Lexicon): seq<Path>
    decreases members, 2
  {
    if members == [] then []
    else
      var n := |members| - 1;
      var m := members[n];
      assert m.1 < m;
      BadMembers(members[..n], path, depth, limit, p, lex)
      + BadVisit(m.0, m.1, path + [Key(m.0)], depth + 1, limit, false, p, lex)
  }

  /** Only the first 256 items are visited. */
  function BadItems(items: seq<Json>, from: nat, path: Path, depth: nat, limit: nat,
                    p: Principal, lex: Lexicon): seq<Path>
    decreases items, 2
  {
    if items == [] || from >= MAX_ITEMS then []
    else
      BadDescend(items[0], path + [Index(from)], depth + 1, limit, p, lex)
      + BadItems(items[1..], from + 1, path, depth, limit, p, lex)
  }

  predicate TwoSlashes(key: string) {
    exists i, j :: 0 <= i < j < |key| && key[i] == '/' && key[j] == '/'
  }

  function Reserved(): set<string> { {PROTOCOL_KEY} + TRACE_KEYS + SELF_REPORTED }

  predicate TraceOk(key: string, value: Json, lex: Lexicon) {
    IsText(value) && TextLength(value) <= 8192 && !lex.traceMalformed(key, value)
  }

  function BadTop(key: string, value: Json, allow: Option<set<string>>, p: Principal, lex: Lexicon): seq<Path> {
    var path := [Key(key)];
    if key == PROTOCOL_KEY then
      if IsText(value) && TextLength(value) <= 64 then [] else [path]
    else if TwoSlashes(key) then [path]
    else if key in TRACE_KEYS then
      if TraceOk(key, value, lex) then [] else [path]
    else if key in SELF_REPORTED then BadDescend(value, path, 0, MAX_SELF_REPORTED_DEPTH, p, lex)
    else if allow.Some? && key !in allow.value + Reserved() then [path]
    else BadVisit(key, value, path, 0, MAX_META_DEPTH, allow.Some?, p, lex)
  }

  function BadTops(members: seq<(string, Json)>, allow: Option<set<string>>, p: Principal, lex: Lexicon): seq<Path> {
    if members == [] then []
    else
      var n := |members| - 1;
      BadTops(members[..n], allow, p, lex) + BadTop(members[n].0, members[n].1, allow, p, lex)
  }

  /** `_meta` absent or empty passes. */
  function BadMeta(meta: Option<Json>, allow: Option<set<string>>, p: Principal, lex: Lexicon): seq<Path> {
    if meta.Some? && meta.value.Obj? then BadTops(meta.value.members, allow, p, lex) else []
  }

  predicate Accepts(meta: Option<Json>, allow: Option<set<string>>, p: Principal, lex: Lexicon) {
    BadMeta(meta, allow, p, lex) == []
  }
}
