/** Which `x-mcp-header` annotations of a schema count (cosai_mcp/protocol.py:229-270), said
    by looking them up in the schema. */
module Declared {
  import opened Wrappers
  import opened Json
  import opened Protocol

  /** `sub` is the schema of the property that `path` leads to. */
  ghost predicate SchemaAt(schema: Json, path: seq<string>, sub: Json)
    decreases |path|
  {
    if path == [] then schema == sub
    else
      exists props: seq<(string, Json)>, next: Json ::
        Get(schema, "properties") == Some(Obj(props)) && (path[0], next) in props && next.Obj?
        && SchemaAt(next, path[1..], sub)
  }

  /** The property at `path` is annotated with this name and has this type. */
  ghost predicate AnnotatedAt(schema: Json, path: seq<string>, name: string, kind: Option<Json>) {
    exists sub :: SchemaAt(schema, path, sub) && Get(sub, "x-mcp-header") == Some(Str(name)) && Get(sub, "type") == kind
  }

  // ---------------------------------------------------------------------------
  // The walk finds the annotated properties, at most seventeen keys deep
  // ---------------------------------------------------------------------------

  /** The part of the walk for one property. */
  function Below(key: string, sub: Json, path: seq<string>, depth: nat): seq<Annotation>
    requires depth <= 16
  {
    if !sub.Obj? then []
    else
      (match Get(sub, "x-mcp-header")
       case Some(Str(ann)) => [Annotation(ann, path + [key], Get(sub, "type"))]
       case _ => [])
      + (if depth + 1 > 16 then [] else Walk(sub, path + [key], depth + 1))
  }

  lemma {:induction false} WalkedMember(props: seq<(string, Json)>, path: seq<string>, depth: nat, a: Annotation)
    requires depth <= 16
    ensures a in WalkProperties(props, path, depth) <==> exists m :: m in props && a in Below(m.0, m.1, path, depth)
    decreases |props|
  {
    if props != [] {
      var n := |props| - 1;
      WalkedMember(props[..n], path, depth, a);
      assert props == props[..n] + [props[n]];
      assert WalkProperties(props, path, depth)
          == WalkProperties(props[..n], path, depth) + Below(props[n].0, props[n].1, path, depth);
    }
  }

  lemma {:induction false} WalkSound(schema: Json, path: seq<string>, depth: nat, a: Annotation)
    requires depth <= 16 && a in Walk(schema, path, depth)
    ensures |a.path| > |path| && a.path[..|path|] == path && |a.path| <= |path| + 17 - depth
    ensures AnnotatedAt(schema, a.path[|path|..], a.name, a.kind)
    decreases 16 - depth
  {
    var props := Get(schema, "properties").value.members;
    WalkedMember(props, path, depth, a);
    var m :| m in props && a in Below(m.0, m.1, path, depth);
    if depth < 16 && a in Walk(m.1, path + [m.0], depth + 1) {
      WalkSound(m.1, path + [m.0], depth + 1, a);
      StepDown(schema, props, m, path, a);
    } else {
      assert a.path == path + [m.0];
      OneStep(schema, props, m);
      assert a.path[|path|..] == [m.0];
    }
  }

  lemma {:induction false} OneStep(schema: Json, props: seq<(string, Json)>, m: (string, Json))
    requires Get(schema, "properties") == Some(Obj(props)) && m in props && m.1.Obj?
    ensures SchemaAt(schema, [m.0], m.1)
  {
    var q := [m.0];
    assert q[1..] == [] && SchemaAt(m.1, q[1..], m.1);
  }

  lemma {:induction false} StepDown(schema: Json, props: seq<(string, Json)>, m: (string, Json), path: seq<string>,
                                    a: Annotation)
    requires Get(schema, "properties") == Some(Obj(props)) && m in props && m.1.Obj?
    requires |a.path| > |path| + 1 && a.path[..|path| + 1] == path + [m.0]
    requires AnnotatedAt(m.1, a.path[|path| + 1..], a.name, a.kind)
    ensures a.path[..|path|] == path && AnnotatedAt(schema, a.path[|path|..], a.name, a.kind)
  {
    var q := a.path[|path|..];
    assert a.path[..|path| + 1][..|path|] == path && a.path[..|path| + 1][|path|] == m.0;
    assert q[0] == m.0 && q[1..] == a.path[|path| + 1..];
    var sub :| SchemaAt(m.1, q[1..], sub) && Get(sub, "x-mcp-header") == Some(Str(a.name))
               && Get(sub, "type") == a.kind;
    assert SchemaAt(schema, q, sub);
  }

  lemma {:induction false} FirstStep(schema: Json, q: seq<string>, name: string, kind: Option<Json>)
    returns (props: seq<(string, Json)>, next: Json)
    requires q != [] && AnnotatedAt(schema, q, name, kind)
    ensures Get(schema, "properties") == Some(Obj(props)) && (q[0], next) in props && next.Obj?
    ensures AnnotatedAt(next, q[1..], name, kind)
  {
    var sub :| SchemaAt(schema, q, sub) && Get(sub, "x-mcp-header") == Some(Str(name)) && Get(sub, "type") == kind;
    props, next :| Get(schema, "properties") == Some(Obj(props)) && (q[0], next) in props && next.Obj?
                   && SchemaAt(next, q[1..], sub);
  }

  lemma {:induction false} AnnotatedHere(sub: Json, key: string, path: seq<string>, depth: nat, name: string,
                                         kind: Option<Json>)
    requires depth <= 16 && sub.Obj? && AnnotatedAt(sub, [], name, kind)
    ensures Annotation(name, path + [key], kind) in Below(key, sub, path, depth)
  {
    hide Walk;
  }

  lemma {:induction false} WalkComplete(schema: Json, path: seq<string>, depth: nat, q: seq<string>, name: string,
                                        kind: Option<Json>)
    requires depth <= 16 && 1 <= |q| <= 17 - depth && AnnotatedAt(schema, q, name, kind)
    ensures Annotation(name, path + q, kind) in Walk(schema, path, depth)
    decreases |q|
  {
    hide AnnotatedAt, SchemaAt, WalkProperties;
    var props, next := FirstStep(schema, q, name, kind);
    if |q| == 1 {
      assert q[1..] == [] && q == [q[0]];
      AnnotatedHere(next, q[0], path, depth, name, kind);
    } else {
      WalkComplete(next, path + [q[0]], depth + 1, q[1..], name, kind);
      assert (path + [q[0]]) + q[1..] == path + q;
    }
    WalkedMember(props, path, depth, Annotation(name, path + q, kind));
  }

  /** The walk from the root finds exactly the annotated properties reached by one to
      seventeen `properties` keys. */
  lemma {:induction false} WalkedIff(schema: Json, a: Annotation)
    ensures a in Walk(schema, [], 0) <==> 1 <= |a.path| <= 17 && AnnotatedAt(schema, a.path, a.name, a.kind)
  {
    if a in Walk(schema, [], 0) {
      WalkSound(schema, [], 0, a);
      assert a.path[0..] == a.path;
    }
    if 1 <= |a.path| <= 17 && AnnotatedAt(schema, a.path, a.name, a.kind) {
      WalkComplete(schema, [], 0, a.path, a.name, a.kind);
      assert [] + a.path == a.path;
    }
  }

  // ---------------------------------------------------------------------------
  // Of those, the first of each token name counts, if its type is primitive
  // ---------------------------------------------------------------------------

  /** "string", "integer" or "boolean", or a list of one of them beside any number of "null". */
  ghost predicate HasPrimitiveType(kind: Option<Json>) {
    || kind == Some(Str("string")) || kind == Some(Str("integer")) || kind == Some(Str("boolean"))
    || (exists items, k ::
          && kind == Some(Arr(items)) && 0 <= k < |items|
          && items[k] in [Str("string"), Str("integer"), Str("boolean")]
          && forall i :: 0 <= i < |items| && i != k ==> items[i] == Str("null"))
  }

  lemma {:induction false} OneLeft(items: seq<Json>, k: nat)
    requires k < |items| && items[k] != Str("null")
    requires forall i :: 0 <= i < |items| && i != k ==> items[i] == Str("null")
    ensures NotNull(items) == [items[k]]
  {
    var n := |items| - 1;
    if k < n {
      OneLeft(items[..n], k);
    } else {
      NoneLeft(items[..n]);
    }
  }

  lemma {:induction false} NoneLeft(items: seq<Json>)
    requires forall i :: 0 <= i < |items| ==> items[i] == Str("null")
    ensures NotNull(items) == []
  {
    if items != [] {
      NoneLeft(items[..|items| - 1]);
    }
  }

  lemma {:induction false} NothingLeft(items: seq<Json>)
    requires NotNull(items) == []
    ensures forall i :: 0 <= i < |items| ==> items[i] == Str("null")
  {
    if items != [] {
      NothingLeft(items[..|items| - 1]);
    }
  }

  lemma {:induction false} WhichIsLeft(items: seq<Json>) returns (k: nat)
    requires |NotNull(items)| == 1
    ensures k < |items| && items[k] == NotNull(items)[0] && items[k] != Str("null")
    ensures forall i :: 0 <= i < |items| && i != k ==> items[i] == Str("null")
  {
    hide NotNull;
    LastLeft(items);
    var n: nat := |items| - 1;
    if items[n] == Str("null") {
      k := WhichIsLeft(items[..n]);
    } else {
      k := n;
      NothingLeft(items[..n]);
    }
  }

  lemma {:induction false} LastLeft(items: seq<Json>)
    requires |NotNull(items)| == 1
    ensures items != []
    ensures var n := |items| - 1;
            if items[n] == Str("null") then NotNull(items[..n]) == NotNull(items)
            else NotNull(items[..n]) == [] && NotNull(items)[0] == items[n]
  {
  }

  lemma {:induction false} PrimitiveIff(kind: Option<Json>)
    ensures Primitive(kind) <==> HasPrimitiveType(kind)
  {
    match kind
    case Some(Arr(items)) =>
      if Primitive(kind) {
        var k := WhichIsLeft(items);
      }
      if HasPrimitiveType(kind) {
        var k :| 0 <= k < |items| && items[k] in [Str("string"), Str("integer"), Str("boolean")]
                 && forall i :: 0 <= i < |items| && i != k ==> items[i] == Str("null");
        OneLeft(items, k);
      }
    case _ =>
  }

  predicate NameChar(c: char) {
    'A' <= c <= 'Z' || 'a' <= c <= 'z' || '0' <= c <= '9' || c in "!#$%&'*+-.^_`|~"
  }

  predicate NameText(s: string) { s != "" && forall i :: 0 <= i < |s| ==> NameChar(s[i]) }

  /** A token of section 5.6.2 of RFC 9110, with or without a line feed behind it. */
  ghost predicate TokenName(s: string) {
    exists token :: NameText(token) && (s == token || s == token + "\n")
  }

  lemma {:induction false} CharIs(c: char)
    ensures TokenChar(c) <==> NameChar(c)
  {
    var signs := "!#$%&'*+-.^_`|~";
    assert signs == ['!', '#', '$', '%', '&', '\'', '*', '+', '-', '.', '^', '_', '`', '|', '~'];
  }

  lemma {:induction false} TextIs(s: string)
    ensures s != "" && AllTokenChars(s) <==> NameText(s)
  {
    hide TokenChar, NameChar;
    forall i | 0 <= i < |s|
      ensures TokenChar(s[i]) <==> NameChar(s[i])
    {
      CharIs(s[i]);
    }
  }

  lemma {:induction false} TokenIff(s: string)
    ensures IsToken(s) <==> TokenName(s)
  {
    hide AllTokenChars, NameText;
    TextIs(s);
    TextIs("");
    if s != "" {
      var init := s[..|s| - 1];
      TextIs(init);
      assert s[|s| - 1] == '\n' ==> s == init + "\n";
    }
    if token :| NameText(token) && s == token + "\n" {
      assert s[..|s| - 1] == token;
    }
  }

  /** The annotation at position `k` is the first of its token name, and primitive. */
  ghost predicate Counts(anns: seq<Annotation>, k: nat) {
    && k < |anns| && TokenName(anns[k].name) && HasPrimitiveType(anns[k].kind)
    && forall j :: 0 <= j < k && TokenName(anns[j].name) ==> Lower(anns[j].name) != Lower(anns[k].name)
  }

  ghost predicate CountsSomewhere(anns: seq<Annotation>, a: Annotation) {
    exists k: nat :: Counts(anns, k) && anns[k] == a
  }

  lemma {:induction false} CountsInRange(anns: seq<Annotation>)
    ensures forall k: nat :: Counts(anns, k) ==> k < |anns|
  {
  }

  lemma {:induction false} CountsEarlier(anns: seq<Annotation>, k: nat)
    requires k + 1 < |anns|
    ensures Counts(anns[..|anns| - 1], k) <==> Counts(anns, k)
  {
    hide TokenName, HasPrimitiveType, Lower;
  }

  lemma {:induction false} CountsSnoc(anns: seq<Annotation>, a: Annotation)
    requires anns != []
    ensures var n: nat := |anns| - 1;
            CountsSomewhere(anns, a) <==> CountsSomewhere(anns[..n], a) || (Counts(anns, n) && anns[n] == a)
  {
    hide Counts;
    var n: nat := |anns| - 1;
    CountsInRange(anns);
    CountsInRange(anns[..n]);
    forall k: nat | k < n
      ensures Counts(anns[..n], k) <==> Counts(anns, k)
    {
      CountsEarlier(anns, k);
    }
    if k: nat :| Counts(anns, k) && anns[k] == a && k < n {
      assert Counts(anns[..n], k) && anns[..n][k] == a;
    }
    if k: nat :| Counts(anns[..n], k) && anns[..n][k] == a {
      assert Counts(anns, k) && anns[k] == a;
    }
  }

  lemma {:induction false} ValidSnoc(anns: seq<Annotation>)
    requires anns != []
    ensures var n: nat := |anns| - 1;
            Valid(anns) == Valid(anns[..n]) + (if Counts(anns, n) then [anns[n]] else [])
  {
    hide Primitive, HasPrimitiveType, IsToken, TokenName, Lower;
    forall i | 0 <= i < |anns|
      ensures IsToken(anns[i].name) <==> TokenName(anns[i].name)
    {
      TokenIff(anns[i].name);
    }
    PrimitiveIff(anns[|anns| - 1].kind);
  }

  lemma {:induction false} ValidIff(anns: seq<Annotation>, a: Annotation)
    ensures a in Valid(anns) <==> CountsSomewhere(anns, a)
  {
    if anns == [] {
      assert forall k: nat :: !Counts(anns, k);
    } else {
      ValidIff(anns[..|anns| - 1], a);
      CountsSnoc(anns, a);
      ValidSnoc(anns);
    }
  }

  /** The annotations that count are those of the walk that come first under their token
      name and have a primitive type. */
  lemma {:induction false} DeclaredIff(schema: Json, a: Annotation)
    ensures a in Annotations(schema) <==>
              schema.Obj? && CountsSomewhere(Walk(schema, [], 0), a)
  {
    if schema.Obj? {
      ValidIff(Walk(schema, [], 0), a);
    }
  }
}
