/** `CoSAIStack.check_request_envelope`: identity claims of every message first, then
    the envelope (cosai_mcp/middleware/__init__.py:168-268). */
module Stack {
  import opened Wrappers
  import opened Json
  import opened Protocol
  import opened Envelope
  import opened EnvelopeCheck
  import opened MetaSpec
  import opened MetaReconcile

  const MODERN_VERSIONS: set<string> := {"2026-07-28"}

  datatype Offence = BatchElement | MalformedMeta | Claims(paths: seq<Path>)

  datatype Outcome =
    | Accepted(version: string)
    | Unparsed
    | Untrusted(offence: Offence)
    | Rejected(reason: Reason)

  datatype Event =
    | InvalidBody(subject: string)
    | MetaMismatch(subject: string, offence: Offence)
    | EnvelopeFailure(subject: string, code: int, reason: Reason)

  // ---------------------------------------------------------------------------
  // Where `_meta` can ride
  // ---------------------------------------------------------------------------

  predicate Parsed(body: Json) { body.Obj? || body.Arr? }

  function Messages(body: Json): seq<Json> {
    match body
    case Arr(items) => items
    case _ => [body]
  }

  function Field(v: Json, key: string): Json {
    match Get(v, key)
    case Some(x) => x
    case None => Null
  }

  /** The params of a request, the result of a response, the data of an error. */
  function Carriers(message: Json): seq<Json> {
    if !message.Obj? then []
    else
      [Field(message, "params"), Field(message, "result")]
      + (if Field(message, "error").Obj? then [Field(Field(message, "error"), "data")] else [])
  }

  /** `None` when absent or null. */
  function MetaIn(carrier: Json): Option<Json> {
    if Field(carrier, "_meta").Null? then None else Some(Field(carrier, "_meta"))
  }

  // ---------------------------------------------------------------------------
  // The offence that is reported
  // ---------------------------------------------------------------------------

  function CarrierOffence(carrier: Json, allow: Option<set<string>>, p: Principal, lex: Lexicon): Option<Offence> {
    match MetaIn(carrier)
    case None => None
    case Some(meta) =>
      if !meta.Obj? then Some(MalformedMeta)
      else
        var bad := BadMeta(Some(meta), allow, p, lex);
        if bad == [] then None else Some(Claims(bad))
  }

  function FirstOfCarriers(carriers: seq<Json>, allow: Option<set<string>>, p: Principal,
                           lex: Lexicon): Option<Offence>
  {
    if carriers == [] then None
    else
      match CarrierOffence(carriers[0], allow, p, lex)
      case Some(o) => Some(o)
      case None => FirstOfCarriers(carriers[1..], allow, p, lex)
  }

  function MessageOffence(message: Json, batch: bool, allow: Option<set<string>>, p: Principal,
                          lex: Lexicon): Option<Offence>
  {
    if batch && !message.Obj? then Some(BatchElement) else FirstOfCarriers(Carriers(message), allow, p, lex)
  }

  function FirstOfMessages(messages: seq<Json>, batch: bool, allow: Option<set<string>>, p: Principal,
                           lex: Lexicon): Option<Offence>
  {
    if messages == [] then None
    else
      match MessageOffence(messages[0], batch, allow, p, lex)
      case Some(o) => Some(o)
      case None => FirstOfMessages(messages[1..], batch, allow, p, lex)
  }

  function FirstOffence(body: Json, allow: Option<set<string>>, p: Principal, lex: Lexicon): Option<Offence> {
    FirstOfMessages(Messages(body), body.Arr?, allow, p, lex)
  }

  // ---------------------------------------------------------------------------
  // No offence: every message has been reconciled
  // ---------------------------------------------------------------------------

  ghost predicate CarrierTrusted(carrier: Json, allow: Option<set<string>>, p: Principal, lex: Lexicon) {
    MetaIn(carrier).Some? ==> MetaIn(carrier).value.Obj? && Accepts(MetaIn(carrier), allow, p, lex)
  }

  ghost predicate MessageTrusted(message: Json, allow: Option<set<string>>, p: Principal, lex: Lexicon) {
    message.Obj? && forall c :: c in Carriers(message) ==> CarrierTrusted(c, allow, p, lex)
  }

  /** Every message is a mapping, and every `_meta` it carries is accepted. */
  ghost predicate Trusted(body: Json, allow: Option<set<string>>, p: Principal, lex: Lexicon) {
    forall m :: m in Messages(body) ==> MessageTrusted(m, allow, p, lex)
  }

  lemma NoOffenceIffCarrierTrusted(carrier: Json, allow: Option<set<string>>, p: Principal, lex: Lexicon)
    ensures CarrierOffence(carrier, allow, p, lex).None? <==> CarrierTrusted(carrier, allow, p, lex)
  {
  }

  lemma {:induction false} NoCarrierOffence(carriers: seq<Json>, allow: Option<set<string>>, p: Principal, lex: Lexicon)
    ensures FirstOfCarriers(carriers, allow, p, lex).None? <==>
              forall c :: c in carriers ==> CarrierTrusted(c, allow, p, lex)
  {
    if carriers != [] {
      NoCarrierOffence(carriers[1..], allow, p, lex);
      NoOffenceIffCarrierTrusted(carriers[0], allow, p, lex);
      assert carriers[0] in carriers;
      assert carriers == [carriers[0]] + carriers[1..];
    }
  }

  lemma {:induction false} NoMessageOffence(messages: seq<Json>, allow: Option<set<string>>, p: Principal, lex: Lexicon)
    ensures FirstOfMessages(messages, true, allow, p, lex).None? <==>
              forall m :: m in messages ==> MessageTrusted(m, allow, p, lex)
  {
    if messages != [] {
      NoMessageOffence(messages[1..], allow, p, lex);
      NoCarrierOffence(Carriers(messages[0]), allow, p, lex);
      assert messages[0] in messages;
      assert messages == [messages[0]] + messages[1..];
    }
  }

  lemma OneMessage(message: Json, allow: Option<set<string>>, p: Principal, lex: Lexicon)
    ensures FirstOfMessages([message], false, allow, p, lex) == FirstOfCarriers(Carriers(message), allow, p, lex)
  {
    assert [message][1..] == [];
    assert FirstOfMessages([message][1..], false, allow, p, lex) == None;
    match MessageOffence(message, false, allow, p, lex)
    case Some(_) =>
    case None =>
  }

  /** A parsed body has no offence exactly when every message of it is trusted. */
  lemma NoOffenceIffTrusted(body: Json, allow: Option<set<string>>, p: Principal, lex: Lexicon)
    requires Parsed(body)
    ensures FirstOffence(body, allow, p, lex).None? <==> Trusted(body, allow, p, lex)
  {
    match body
    case Arr(items) => NoMessageOffence(items, allow, p, lex);
    case Obj(_) =>
      assert Messages(body) == [body] && body in Messages(body) && [body][1..] == [];
      NoCarrierOffence(Carriers(body), allow, p, lex);
      OneMessage(body, allow, p, lex);
      assert Trusted(body, allow, p, lex) <==> MessageTrusted(body, allow, p, lex);
  }

  /** In a body that gets past reconciliation, no claim anywhere exceeds the principal:
      not in any message of a batch, nor in params, result or error data, at any depth. */
  lemma NoClaimEscapes(body: Json, allow: Option<set<string>>, p: Principal, lex: Lexicon,
                       message: Json, carrier: Json, meta: Json, m: (string, Json), q: Path, v: Json)
    requires Trusted(body, allow, p, lex)
    requires message in Messages(body) && carrier in Carriers(message) && MetaIn(carrier) == Some(meta)
    ensures meta.Obj?
    ensures m in meta.members && m.0 != PROTOCOL_KEY && m.0 !in TRACE_KEYS && Occurs(m.1, q, v) ==>
              && (q == [] && m.0 !in SELF_REPORTED ==> Truthful(lex.candidates(m.0, true), v, p, lex))
              && (q != [] && q[|q| - 1].Key? ==> Truthful(lex.candidates(q[|q| - 1].key, false), v, p, lex))
              && (NonEmpty(v) ==> |q| + 1 < DepthLimit(m.0) && (v.Arr? ==> |v.items| <= 256))
  {
    assert MessageTrusted(message, allow, p, lex);
    assert CarrierTrusted(carrier, allow, p, lex);
    if m in meta.members && m.0 != PROTOCOL_KEY && m.0 !in TRACE_KEYS && Occurs(m.1, q, v) {
      EveryClaimIsTruthful(meta, allow, p, lex, m, q, v);
    }
  }

  // ---------------------------------------------------------------------------
  // The same, by looking the claims up in the body
  // ---------------------------------------------------------------------------

  /** `meta` is the `_meta` of the message's params, of its result or of its error data. */
  ghost predicate RidesIn(message: Json, meta: Json) {
    && meta != Null
    && exists carrier ::
         && Get(carrier, "_meta") == Some(meta)
         && (|| Get(message, "params") == Some(carrier)
             || Get(message, "result") == Some(carrier)
             || exists err :: Get(message, "error") == Some(err) && Get(err, "data") == Some(carrier))
  }

  ghost predicate AllAccepted(message: Json, allow: Option<set<string>>, p: Principal, lex: Lexicon) {
    forall meta :: RidesIn(message, meta) ==> meta.Obj? && Accepts(Some(meta), allow, p, lex)
  }

  /** The body is a mapping, or a batch of mappings, and every `_meta` in it is accepted. */
  ghost predicate Reconciled(body: Json, allow: Option<set<string>>, p: Principal, lex: Lexicon) {
    || (body.Obj? && AllAccepted(body, allow, p, lex))
    || (body.Arr? && forall i :: 0 <= i < |body.items| ==>
          body.items[i].Obj? && AllAccepted(body.items[i], allow, p, lex))
  }

  lemma {:induction false} CarriersAre(message: Json, c: Json)
    requires message.Obj?
    ensures c in Carriers(message) <==>
              || c == Field(message, "params")
              || c == Field(message, "result")
              || (Field(message, "error").Obj? && c == Field(Field(message, "error"), "data"))
  {
    var two := [Field(message, "params"), Field(message, "result")];
    assert two[0] in two && two[1] in two;
    if Field(message, "error").Obj? {
      var third := [Field(Field(message, "error"), "data")];
      assert third[0] in third && Carriers(message) == two + third;
    } else {
      assert Carriers(message) == two;
    }
  }

  lemma {:induction false} MetaInIs(c: Json, meta: Json)
    ensures MetaIn(c) == Some(meta) <==> meta != Null && Get(c, "_meta") == Some(meta)
  {
  }

  lemma {:induction false} CarrierRides(message: Json, c: Json, meta: Json)
    requires message.Obj? && c in Carriers(message) && MetaIn(c) == Some(meta)
    ensures RidesIn(message, meta)
  {
    hide Carriers, MetaIn;
    CarriersAre(message, c);
    MetaInIs(c, meta);
    assert c.Obj?;
  }

  lemma {:induction false} RidesInCarrier(message: Json, meta: Json)
    requires message.Obj?
    ensures RidesIn(message, meta) <==> exists c :: c in Carriers(message) && MetaIn(c) == Some(meta)
  {
    hide Carriers, MetaIn;
    if RidesIn(message, meta) {
      var c :| Get(c, "_meta") == Some(meta)
               && (|| Get(message, "params") == Some(c)
                   || Get(message, "result") == Some(c)
                   || exists err :: Get(message, "error") == Some(err) && Get(err, "data") == Some(c));
      CarriersAre(message, c);
      MetaInIs(c, meta);
    }
    if c :| c in Carriers(message) && MetaIn(c) == Some(meta) {
      CarrierRides(message, c, meta);
    }
  }

  lemma {:induction false} MessageTrustedIff(message: Json, allow: Option<set<string>>, p: Principal, lex: Lexicon)
    requires message.Obj?
    ensures MessageTrusted(message, allow, p, lex) <==> AllAccepted(message, allow, p, lex)
  {
    hide Carriers, MetaIn, RidesIn, Accepts;
    forall meta
      ensures RidesIn(message, meta) <==> exists c :: c in Carriers(message) && MetaIn(c) == Some(meta)
    {
      RidesInCarrier(message, meta);
    }
  }

  lemma {:induction false} TrustedIffReconciled(body: Json, allow: Option<set<string>>, p: Principal, lex: Lexicon)
    ensures Trusted(body, allow, p, lex) <==> Reconciled(body, allow, p, lex)
  {
    hide AllAccepted, MessageTrusted;
    forall m
      ensures MessageTrusted(m, allow, p, lex) <==> m.Obj? && AllAccepted(m, allow, p, lex)
    {
      MessageIs(m, allow, p, lex);
    }
    match body
    case Arr(items) =>
      assert Trusted(body, allow, p, lex) <==>
             forall i :: 0 <= i < |items| ==> MessageTrusted(items[i], allow, p, lex);
    case _ =>
      assert Messages(body) == [body] && body in Messages(body);
  }

  lemma {:induction false} MessageIs(message: Json, allow: Option<set<string>>, p: Principal, lex: Lexicon)
    ensures MessageTrusted(message, allow, p, lex) <==> message.Obj? && AllAccepted(message, allow, p, lex)
  {
    if message.Obj? {
      MessageTrustedIff(message, allow, p, lex);
    }
  }

  /** In a body that gets past reconciliation, whatever `_meta` it carries, in whichever of
      the three places of whichever message, is a mapping in which no claim, at any depth,
      says what the principal is not. */
  lemma {:induction false} NoMetaEscapes(body: Json, allow: Option<set<string>>, p: Principal, lex: Lexicon,
                                         message: Json, meta: Json, m: (string, Json), q: Path, v: Json)
    requires Reconciled(body, allow, p, lex)
    requires message == body || (body.Arr? && message in body.items)
    requires message.Obj? && RidesIn(message, meta)
    ensures meta.Obj? && Accepts(Some(meta), allow, p, lex)
    ensures m in meta.members && m.0 != PROTOCOL_KEY && m.0 !in TRACE_KEYS && Occurs(m.1, q, v) ==>
              && (q == [] && m.0 !in SELF_REPORTED ==> Truthful(lex.candidates(m.0, true), v, p, lex))
              && (q != [] && q[|q| - 1].Key? ==> Truthful(lex.candidates(q[|q| - 1].key, false), v, p, lex))
              && (NonEmpty(v) ==> |q| + 1 < DepthLimit(m.0) && (v.Arr? ==> |v.items| <= 256))
  {
    assert AllAccepted(message, allow, p, lex);
    if m in meta.members && m.0 != PROTOCOL_KEY && m.0 !in TRACE_KEYS && Occurs(m.1, q, v) {
      EveryClaimIsTruthful(meta, allow, p, lex, m, q, v);
    }
  }

  // ---------------------------------------------------------------------------
  // The check
  // ---------------------------------------------------------------------------

  /** What is audited: every failure, once; a success not at all. */
  function Audited(out: Outcome, subject: string): seq<Event> {
    match out
    case Accepted(_) => []
    case Unparsed => [InvalidBody(subject)]
    case Untrusted(o) => [MetaMismatch(subject, o)]
    case Rejected(e) => [EnvelopeFailure(subject, Code(e), e)]
  }

  /** The two rejections on which a dual-era server hands the body to a legacy handler. */
  predicate IsFallback(out: Outcome) {
    out == Rejected(Batch) || out == Rejected(MissingMeta)
  }

  class CoSAIStack {
    const hasAudit: bool
    var events: seq<Event>

    constructor (hasAudit: bool)
      ensures this.hasAudit == hasAudit && events == []
    {
      this.hasAudit, events := hasAudit, [];
    }

    method Log(event: Event)
      modifies this
      ensures events == old(events) + (if hasAudit then [event] else [])
    {
      if hasAudit {
        events := events + [event];
      }
    }

    /** One message: reports and logs its first offence. */
    method ReconcileMessage(message: Json, batch: bool, allow: Option<set<string>>, p: Principal, lex: Lexicon)
      returns (o: Option<Offence>)
      modifies this
      ensures o == MessageOffence(message, batch, allow, p, lex)
      ensures events == old(events) + (if o.Some? && hasAudit then [MetaMismatch(p.subject, o.value)] else [])
    {
      if batch && !message.Obj? {
        Log(MetaMismatch(p.subject, BatchElement));
        return Some(BatchElement);
      }
      var carriers: seq<Json> := [];
      if message.Obj? {
        carriers := [Field(message, "params"), Field(message, "result")];
        var err := Field(message, "error");
        if err.Obj? {
          carriers := carriers + [Field(err, "data")];
        }
      }
      assert carriers == Carriers(message) && carriers[0..] == carriers;
      for i := 0 to |carriers|
        invariant events == old(events)
        invariant FirstOfCarriers(carriers[i..], allow, p, lex) == MessageOffence(message, batch, allow, p, lex)
      {
        assert carriers[i..][0] == carriers[i] && carriers[i..][1..] == carriers[i + 1..];
        var meta := MetaIn(carriers[i]);
        if meta.Some? && !meta.value.Obj? {
          Log(MetaMismatch(p.subject, MalformedMeta));
          return Some(MalformedMeta);
        }
        var bad := ReconcileMeta(meta, allow, p, lex);
        if bad != [] {
          Log(MetaMismatch(p.subject, Claims(bad)));
          return Some(Claims(bad));
        }
      }
      return None;
    }

    method ReconcileAll(body: Json, allow: Option<set<string>>, p: Principal, lex: Lexicon)
      returns (o: Option<Offence>)
      modifies this
      ensures o == FirstOffence(body, allow, p, lex)
      ensures events == old(events) + (if o.Some? && hasAudit then [MetaMismatch(p.subject, o.value)] else [])
    {
      var messages := Messages(body);
      assert messages[0..] == messages;
      for i := 0 to |messages|
        invariant events == old(events)
        invariant FirstOfMessages(messages[i..], body.Arr?, allow, p, lex) == FirstOffence(body, allow, p, lex)
      {
        assert messages[i..][0] == messages[i] && messages[i..][1..] == messages[i + 1..];
        o := ReconcileMessage(messages[i], body.Arr?, allow, p, lex);
        if o.Some? {
          return;
        }
      }
      return None;
    }

    /** Whatever the era of the request, nothing but a rejection for its claims leaves this
        method before all of them are reconciled; the fallback signals are given only for
        a body that is trusted and carries no modern routing header. */
    method CheckRequestEnvelope(pairs: Headers, norm: string -> string, body: Json, p: Principal, lex: Lexicon,
                                schemas: Schemas, allow: Option<set<string>>)
      returns (out: Outcome)
      modifies this
      ensures out == Unparsed <==> !(body.Obj? || body.Arr?)
      ensures out.Untrusted? <==> (body.Obj? || body.Arr?) && !Reconciled(body, allow, p, lex)
      ensures out.Untrusted? ==> FirstOffence(body, allow, p, lex) == Some(out.offence)
      ensures out.Accepted? <==>
                Reconciled(body, allow, p, lex) && Acceptable(pairs, norm, body, MODERN_VERSIONS, schemas)
      ensures out.Accepted? ==> VersionOf(body) == Some(Str(out.version))
      ensures out.Rejected? ==> Justified(out.reason, pairs, norm, body, MODERN_VERSIONS, schemas)
      ensures IsFallback(out) <==>
                && Reconciled(body, allow, p, lex) && AliasFree(pairs, norm) && NoModernRouting(pairs, norm)
                && (body.Arr? || (HasMethod(body) && MetaWellFormed(body) && VersionOf(body).None?))
      ensures events == old(events) + (if hasAudit then Audited(out, p.subject) else [])
    {
      if !Parsed(body) {
        UnparsedIsNeither(pairs, norm, body, schemas, allow, p, lex);
        Log(InvalidBody(p.subject));
        return Unparsed;
      }
      NoOffenceIffTrusted(body, allow, p, lex);
      TrustedIffReconciled(body, allow, p, lex);
      var o := ReconcileAll(body, allow, p, lex);
      if o.Some? {
        return Untrusted(o.value);
      }
      var r := Validate(pairs, norm, body, MODERN_VERSIONS, schemas);
      match r
      case Ok(version) =>
        return Accepted(version);
      case Err(e) =>
        Log(EnvelopeFailure(p.subject, Code(e), e));
        return Rejected(e);
    }
  }

  lemma UnparsedIsNeither(pairs: Headers, norm: string -> string, body: Json, schemas: Schemas,
                          allow: Option<set<string>>, p: Principal, lex: Lexicon)
    requires !Parsed(body)
    ensures !Reconciled(body, allow, p, lex) && !Acceptable(pairs, norm, body, MODERN_VERSIONS, schemas)
  {
  }
}
