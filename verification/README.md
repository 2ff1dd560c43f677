# A verified model of the CoSAI MCP enforcement middleware

This project models the stateful enforcement code of the CoSAI MCP scanner and
middleware, and the algorithms under it, in Dafny 4.11. `dafny verify dfyconfig.toml`
checks all of it.

What is modelled, and the main results:

* **Handle registry** (`HandleSpec`, `HandleRuns`, `HandleAnswers`, `HandleRegistry`). The registry purges
  expired records lazily and keeps counters beside its record table. The class is proved
  to take the steps of a lazy registry on values; over every time-ordered run that registry
  answers as a simple one that forgets each record the moment it expires, except that the
  two operator revocations still see the expired records that no purge has swept, and
  nothing else. A `resolve`, refused or not, inserted anywhere into a run changes no other
  answer but those two. A handle resolves exactly when it
  was minted for the caller, has not expired and was not revoked since, and `mint` issues one
  exactly when the three limits, counted on the live records alone, leave room.
* **Sealed request state** (`ReplayCache`, `OpenOutcomes`, `StateSealer`). Map, expiry heap and both counter
  dictionaries always agree; no token is accepted twice; quotas hold in every reachable
  cache, and an owner below the floor is not locked out by three other tenants. `open` returns
  the sealed payload exactly when the claims are the caller's, the token was not accepted
  before and the caps leave room.
* **Request envelope** (`HeaderCodec`, `Protocol`, `Declared`, `Envelope`, `EnvelopeCheck`,
  `WireText`, `EnvelopeRoundTrip`, with `Utf8` and `Base64`). The validator accepts exactly the requests
  whose routing headers are the ones that the body renders; the reason of every rejection is
  true of the request; a rendered request is accepted exactly when its header names are
  portable. Which text each header carries, and which annotations of a schema count, is
  stated value by value.
* **Identity claims** (`MetaSpec`, `MetaReconcile`, `CoSAIStack`). `reconcile_meta` accepts
  exactly when every key at every depth passes; more scopes never turn acceptance into
  rejection; the stack reconciles the `_meta` of the params, the result and the error data of
  every message before it returns or gives a fallback signal.
* **Audit log** (`AuditChain`), **edit distance and typosquats** (`EditDistance`),
  **template substitution** (`Template`, `TemplateErrors`, `TemplateMeaning`, `TemplateLimits`), **redaction**
  (`Scrubber`, `Luhn`), **DPoP replay cache** (`JtiCache`), **recursion guard**
  (`LoopDetector`), **verdicts** (`Results`, `ExitCodes`, `Assurance`, `Verdicts`): each exit
  code, control verdict and level exactly under its own condition on the results.

Objects that the program updates in place are classes whose methods are proved against
functions on values, and the results about whole runs are lemmas about those functions.
A function that the program gets from a library or a heuristic table is a function-valued
argument: the lemmas hold for all such functions.

## Where the code and its documentation differ

* `check_tools` promises to flag any tool name near an allowlisted one. An empty string in
  the allowlist can be the nearest name and then suppresses the finding
  (`EmptyNameHidesMatch`). It hides some name exactly when no one-character entry comes
  before it (`HidesIffEmptyFirst`).
* `scrub` promises that the longest match wins on overlap. The earliest one wins: of an
  e-mail address that runs into a token, the last part of the token stays in the output
  (`LongestDoesNotWin`). The promise is kept on whichever of the matches are
  found exactly when no match has a longer one starting strictly inside it
  (`LongestWinsIffNoneOutgrown`); for the matches of one text that condition suffices, but
  is not necessary.
* `_substitute_str` says that single braces in values are allowed. A value that ends in `{`
  makes the replace loop complete a new token from the template text behind it, so the
  result depends on the order of the variables (`TrapSprings`, `OrderSafeIffNoOpenEnd`). A
  variable name that is not on the allowlist can be replaced too, for instance
  `tool_name}}{{canary`, which the caller's `strip("{}")` leaves alone
  (`TwoInOneIsReplaced`, `HarmlessIffSafe`).
* A tool schema may declare the parameter header `user_id`, because an underscore is a token
  character. The client renders `Mcp-Param-user_id`, and the server rejects every such
  request as a header alias (`UserIdIsNeverAccepted`). The token pattern also admits a final
  line feed, which the server strips (`RenderedIsAcceptedIff`).
* A refused `resolve` leaves a trace: when it meets an expired record it drops it, and a
  later `admin_revoke` or `revoke_principal` no longer finds that record. It is invisible to
  everyone exactly when it met none (`FailedResolveInvisibleIff`), and to callers always
  (`ResolveLeavesNoTrace`).
* Accepting findings can turn exit code 1 into 2, not only into 0
  (`BaselineCanLeaveNothingVerified`): exactly when no probe passed cleanly and the accepted
  findings leave nothing but errors to judge (`BaselineDecides`).

## Model

| member | source | states |
|---|---|---|
| Lists.CachesWithout | cosai_mcp/middleware/state.py:64-69 | decrementing the counter of a removed element keeps a counter dictionary equal to the counts, with no zero entry |
| Lists.CachesSnoc | cosai_mcp/middleware/state.py:441-442 | incrementing the counter of an added element keeps a counter dictionary equal to the counts |
| HandleSpec.RelieveSettles | cosai_mcp/middleware/state.py:424-439 | a forced sweep when a cap is pressed decides each cap as the live records alone would |
| HandleSpec.MakeRoomRefines | cosai_mcp/middleware/state.py:422-439 | `mint` with its amortised purge refuses exactly what the eager registry refuses, for the same reason, and loses no live record |
| HandleSpec.StepRefines | cosai_mcp/middleware/state.py:394-505 | one operation of the lazy registry answers as the eager one; `revoke_principal` lists expired records beside the live ones, and `admin_revoke` says true instead of false exactly for an expired record still in the table |
| HandleSpec.AdminRevokeAgreesIff | cosai_mcp/middleware/state.py:479-486 | `admin_revoke` answers as the eager registry exactly when the handle names no record of the table or a live one |
| HandleRuns.RunRepresents | cosai_mcp/middleware/state.py:351-505 | after every time-ordered run the lazy table and the eager one have the same live records |
| HandleRuns.RegistryRefinesEager | cosai_mcp/middleware/state.py:351-505 | every event of every run is answered as the eager registry answers it, up to the expired records that the operator revocations still see |
| HandleRuns.AdminRevokeDiffersIff | cosai_mcp/middleware/state.py:479-486 | over whole runs `admin_revoke` differs from the eager registry exactly when a record of the handle was issued, never withdrawn, has expired and was not yet swept, and then it says true for false |
| HandleRuns.AdminRevokeSeesExpired | cosai_mcp/middleware/state.py:479-486 | a concrete run in which `admin_revoke` reports a record that expired earlier |
| HandleRuns.HeldIffGranted | cosai_mcp/middleware/state.py:416-496 | an unexpired record is in the table exactly when it was minted and nothing since withdrew it |
| HandleRuns.ResolveIffGranted | cosai_mcp/middleware/state.py:452-470 | `resolve` succeeds exactly for a handle minted for this principal and tenant, unexpired, of the wanted kind and not revoked since |
| HandleRuns.ListShowsGranted | cosai_mcp/middleware/state.py:498-505 | `list_for_principal` shows exactly the granted unexpired records of the principal |
| HandleRuns.FailedResolveIsInvisible | cosai_mcp/middleware/state.py:452-470 | a refused `resolve` changes no later answer of any lookup and no live record, and leaves a table without expired records as it was |
| HandleRuns.FailedResolveKeepsAnswers | cosai_mcp/middleware/state.py:452-470 | nor does it change the answer to any later event, except an operator's revocation |
| HandleRuns.FailedResolveInvisibleIff | cosai_mcp/middleware/state.py:459-463 | it changes no later answer at all exactly when it met no expired record |
| HandleRuns.ResolveLeavesNoTrace | cosai_mcp/middleware/state.py:452-470 | a `resolve` inserted anywhere into a run changes no answer to a later event; an operator's revocation may find other expired records |
| HandleRuns.RunWithinCaps | cosai_mcp/middleware/state.py:416-450 | in every reachable registry no owner exceeds its limit, no tenant twice its share, and the total never exceeds twice the cap |
| HandleRuns.HeldWasGranted | cosai_mcp/middleware/state.py:416-496 | every record of the table, expired or not, was issued and never withdrawn |
| HandleRuns.MintFloorIsGuaranteed | cosai_mcp/middleware/state.py:424-439 | with the default tenant share of a registry of at least four handles, or a smaller one, and at most three other tenants present, an owner below the floor, in a tenant below its ceiling, is refused a valid `mint` exactly when it has reached its own limit |
| HandleAnswers.MintDecides | cosai_mcp/middleware/state.py:416-450 | the answer of `mint`, reason by reason, from the numbers of live records alone: of the registry, of the owner and of the tenant, with the floor of 8 and the doubled caps below it |
| HandleAnswers.RunMintsIff | cosai_mcp/middleware/state.py:416-450 | over runs: a handle is minted exactly when identity and lifetime are good and all three limits leave room |
| HandleAnswers.MintIssues | cosai_mcp/middleware/state.py:420-450 | a successful `mint` adds one record, for the caller, that expires `ttl` seconds later; no live record is lost and no other added |
| HandleAnswers.ResolveIffMinted | cosai_mcp/middleware/state.py:452-470 | after any run a handle resolves exactly when a `mint` returned it to this principal and tenant less than its lifetime ago, with the wanted kind, and none of the four revoking calls that reach it came since |
| HandleAnswers.RevokeDecides | cosai_mcp/middleware/state.py:472-477 | `revoke` succeeds exactly on a live record of the caller and takes that record only |
| HandleRegistries.HandleRegistry.constructor | cosai_mcp/middleware/state.py:362-385 | an empty registry; the default tenant share is a quarter of the cap and at least one |
| HandleRegistries.HandleRegistry.DropRecord | cosai_mcp/middleware/state.py:387-392 | removes the one record of the handle and keeps both counter dictionaries exact |
| HandleRegistries.HandleRegistry.PurgeExpired | cosai_mcp/middleware/state.py:394-400 | removes exactly the expired records, at most once a second unless forced |
| HandleRegistries.HandleRegistry.Notify | cosai_mcp/middleware/state.py:402-414 | every callback is made, in order, even after one has failed, and the failures are counted |
| HandleRegistries.HandleRegistry.Mint | cosai_mcp/middleware/state.py:416-450 | the new table and the answer are those of the lazy step, counters stay exact |
| HandleRegistries.HandleRegistry.Resolve | cosai_mcp/middleware/state.py:452-470 | the new table and the answer are those of the lazy step |
| HandleRegistries.HandleRegistry.Revoke | cosai_mcp/middleware/state.py:472-477 | only the owner of a live handle revokes it, and then its callback runs |
| HandleRegistries.HandleRegistry.AdminRevoke | cosai_mcp/middleware/state.py:479-486 | drops the record whoever asks, tells whether there was one, and makes its callback |
| HandleRegistries.HandleRegistry.RevokePrincipal | cosai_mcp/middleware/state.py:488-496 | drops exactly the records of the principal and makes all their callbacks |
| HandleRegistries.HandleRegistry.ListForPrincipal | cosai_mcp/middleware/state.py:498-505 | a forced sweep, then exactly the records of the principal |
| ReplayCache.ReplayIsRejected | cosai_mcp/middleware/state.py:247-327 | every later presentation of an accepted token is rejected, as a replay if it is still genuine |
| ReplayCache.AcceptedAtMostOnce | cosai_mcp/middleware/state.py:247-327 | over any time-ordered run with fresh token ids no id is accepted twice |
| ReplayCache.FirstUseIsAccepted | cosai_mcp/middleware/state.py:306-325 | a genuine token not spent before is accepted or refused for capacity only |
| ReplayCache.RunLedger | cosai_mcp/middleware/state.py:299-325 | in every reachable cache the tokens are in expiry order, each once |
| ReplayCache.RunWithinQuotas | cosai_mcp/middleware/state.py:51-59 | in every reachable cache no owner exceeds its cap, no tenant twice its share, and the total never exceeds twice the cap |
| ReplayCache.FloorIsGuaranteed | cosai_mcp/middleware/state.py:308-321 | with at most three other tenants present an owner below the floor, in a tenant below its ceiling, is never refused for capacity |
| OpenOutcomes.OpenDecides | cosai_mcp/middleware/state.py:268-327 | claims that fit the caller give the sealed payload, the replay error or the full-cache error, decided by the unexpired earlier acceptances and the three caps; all others are invalid |
| OpenOutcomes.AcceptsIff | cosai_mcp/middleware/state.py:268-327 | over runs with fresh token ids: payload `d` is returned exactly when the claims are unexpired, the caller's and carry `d`, no earlier call with the id was accepted, and the caps leave room |
| OpenOutcomes.CacheFullIff | cosai_mcp/middleware/state.py:308-321 | the full-cache error exactly when such claims, not accepted before, find no room |
| StateSealer.RunTokensWithinQuotas | cosai_mcp/middleware/state.py:51-59 | the quotas bound different tokens of an owner and of a tenant, in every reachable cache |
| StateSealer.PushMatches | cosai_mcp/middleware/state.py:322-325 | recording a new token keeps the heap equal to the keys of the map, once each, in expiry order |
| StateSealer.PopMatches | cosai_mcp/middleware/state.py:300-305 | popping the first entry and its key keeps them equal |
| StateSealer.RequestStateSealer.CountersMatchMap | cosai_mcp/middleware/state.py:299-325 | the counters of an owner and of a tenant are the numbers of map entries they hold, and there is none for one with no entry |
| StateSealer.RequestStateSealer.PopExpired | cosai_mcp/middleware/state.py:300-305 | the incremental purge leaves exactly the unexpired tokens |
| StateSealer.RequestStateSealer.SpendOnce | cosai_mcp/middleware/state.py:299-325 | rejects a replay or a full cache, else records the token, under the invariant |
| StateSealer.RequestStateSealer.Open | cosai_mcp/middleware/state.py:261-327 | with the local cache, the step of the ledger; without single use, genuine tokens only; with a shared store, the payload of a genuine token exactly when the store says it is new |
| JtiCaches.AcceptedIffWindowAllows | cosai_mcp/middleware/auth.py:43-63 | a call is accepted exactly when no accepted call with its id, and fewer than `maxsize` accepted calls, are still inside their windows |
| JtiCaches.AcceptsIff | cosai_mcp/middleware/auth.py:43-63 | the same by counting calls: fewer than `maxsize` earlier accepted calls have open windows, and none of them has this id |
| JtiCaches.ReplayInWindowIsRefused | cosai_mcp/middleware/auth.py:43-63 | after an id is accepted every call with it inside the window returns False |
| JtiCaches.CacheIsWindow | cosai_mcp/middleware/auth.py:47-54 | the cache holds everything ever accepted that is still inside its window: no live entry is evicted |
| JtiCaches.SizeBound | cosai_mcp/middleware/auth.py:55-60 | the size never exceeds `maxsize` |
| JtiCaches.JtiCache.CheckAndAdd | cosai_mcp/middleware/auth.py:43-63 | the object takes the step of the model |
| EditDistance.Levenshtein | cosai_mcp/middleware/integrity.py:76-99 | the result is the length of a shortest insert, delete and substitute script: one exists and none is shorter |
| EditDistance.DistIsShortestScript | cosai_mcp/middleware/integrity.py:76-99 | the table's recurrence is the length of a shortest script |
| EditDistance.NextRow | cosai_mcp/middleware/integrity.py:89-98 | the inner loop computes the next row of the table from the row before it |
| EditDistance.ZeroIffEqual | cosai_mcp/middleware/integrity.py:76-99 | the distance is zero exactly for equal strings |
| EditDistance.Symmetric | cosai_mcp/middleware/integrity.py:76-99 | the distance is symmetric |
| EditDistance.Triangle | cosai_mcp/middleware/integrity.py:76-99 | the triangle inequality |
| EditDistance.ClosestMatch | cosai_mcp/middleware/integrity.py:155-161 | the loop finds the first allowlist name at the least distance, if that is within the limit |
| EditDistance.CheckTools | cosai_mcp/middleware/integrity.py:117-174 | the findings are the reports on the tool names, in order, against the active allowlist |
| EditDistance.ReportIsTrueMinimum | cosai_mcp/middleware/integrity.py:151-172 | a reported match is a true minimum over the allowlist, and exactly when a name is reported |
| EditDistance.OneFindingEach | cosai_mcp/middleware/integrity.py:148-174 | one finding for each reported tool, in the order of the tools |
| EditDistance.NothingMissedWithoutEmptyName | cosai_mcp/middleware/integrity.py:151-172 | without an empty allowlist name a tool is reported exactly when it is near a name and not one |
| EditDistance.EmptyNameHidesMatch | cosai_mcp/middleware/integrity.py:163 | a concrete allowlist whose empty entry hides a near name |
| EditDistance.HidesIffEmptyFirst | cosai_mcp/middleware/integrity.py:151-172 | an allowlist hides some near tool name exactly when the limit is positive and it has an empty entry with no one-character entry before it |
| LoopDetection.LoopDetector.ComputeDepth | cosai_mcp/middleware/resources.py:86-99 | terminates on every parent map with the depth of the chain, at most the number of recorded ids plus one |
| LoopDetection.LoopDetector.RecordCall | cosai_mcp/middleware/resources.py:70-84 | records the edge in either case and raises exactly when the depth exceeds the limit |
| LoopDetection.DepthIsUnique | cosai_mcp/middleware/resources.py:86-99 | the parent map determines the depth |
| LoopDetection.AcyclicDepthIsLength | cosai_mcp/middleware/resources.py:86-99 | on a chain that ends the depth is its exact length |
| LoopDetection.CycleNeverEnds | cosai_mcp/middleware/resources.py:95-96 | a chain that runs into itself never ends, which the guard is for |
| Luhn.LuhnValid | cosai_mcp/middleware/protection.py:87-104 | the loop, with parity counted from the left, decides the rule of Annex B of ISO/IEC 7812-1, counted from the right, for 13 to 19 digits |
| Luhn.ValidIff | cosai_mcp/middleware/protection.py:87-104 | valid exactly with 13 to 19 digits whose sum, every second digit from the right doubled and the last one not, is a multiple of ten |
| Luhn.SingleDigitChangeDetected | cosai_mcp/middleware/protection.py:87-104 | every change of one digit of a valid number is detected |
| Luhn.AdjacentSwapDetected | cosai_mcp/middleware/protection.py:87-104 | a swap of adjacent digits goes unnoticed exactly when they are equal or are 0 and 9 |
| Luhn.MistypedDigitRejected | cosai_mcp/middleware/protection.py:93 | the same for one mistyped digit in a text with separators |
| Scrubber.SortSorts | cosai_mcp/middleware/protection.py:186-187 | the order is by start, longest first, and no match is lost or added |
| Scrubber.SortIsStable | cosai_mcp/middleware/protection.py:186-187 | matches of one interval keep the order of the patterns |
| Scrubber.Select | cosai_mcp/middleware/protection.py:189-195 | the selected matches are disjoint candidates in order, each the longest at its start and labelled by the first pattern that found it, and every other candidate starts inside one |
| Scrubber.SelectionIsUnique | cosai_mcp/middleware/protection.py:189-195 | those conditions determine the selected intervals |
| Scrubber.LongestDoesNotWin | cosai_mcp/middleware/protection.py:169 | a text in which an e-mail address runs into a longer token: the address is masked and the end of the token is not |
| Scrubber.LongestWinsIffNoneOutgrown | cosai_mcp/middleware/protection.py:169 | on whichever of the matches are found a match is passed over only for an overlapping one at least as long, exactly when no match has a longer one starting strictly inside it |
| Scrubber.NoneOutgrownSuffices | cosai_mcp/middleware/protection.py:169 | for the matches of one text that condition suffices |
| Scrubber.OnlySelectedIsReplaced | cosai_mcp/middleware/protection.py:197-206 | input and output are made of the same kept pieces in order, the cut ones replaced by their markers |
| Scrubber.Rebuild | cosai_mcp/middleware/protection.py:197-206 | the loop builds that text |
| Scrubber.Scrub | cosai_mcp/middleware/protection.py:166-210 | corroborates the matches, selects, and redacts exactly the selected ones |
| Template.FindTemplates | cosai_mcp/catalog/template.py:23-36 | the loop finds all tokens, left to right |
| Template.SubstituteStr | cosai_mcp/catalog/template.py:39-70 | the checks and the replace loop, error by error |
| TemplateErrors.TokensAre | cosai_mcp/catalog/template.py:23-36 | the tokens found are the spans from a first double opening brace to the first double closing one behind it, and so on after each |
| TemplateErrors.SubstituteDecides | cosai_mcp/catalog/template.py:39-70 | an unknown-variable error exactly when some token is none of the four allowed ones; else an injection error exactly when a value holds a double brace or a double brace opens in the result; else the result |
| TemplateMeaning.ReplaceStep | cosai_mcp/catalog/template.py:59-62 | replacing one more variable in a partly substituted template is substituting it everywhere at once |
| TemplateMeaning.SubstitutionIsSimultaneous | cosai_mcp/catalog/template.py:39-70 | with safe names and no value of an allowed name ending in an open brace the loop fails or returns the simultaneous substitution |
| TemplateMeaning.OrderDoesNotMatter | cosai_mcp/catalog/template.py:39-70 | with brace-free names and values the order of the variables does not matter and nothing is expanded twice |
| TemplateLimits.HarmlessIffSafe | cosai_mcp/catalog/template.py:60-62 | exactly the safe variable names never change the meaning of a template |
| TemplateLimits.OddKeyIsReplaced | cosai_mcp/catalog/template.py:60-62 | an unsafe name is replaced although the template has no such token |
| TemplateLimits.TwoInOneIsReplaced | cosai_mcp/catalog/template.py:111-118 | an unsafe name that passes the caller's strip: the loop replaces two tokens that have no value |
| TemplateLimits.TrapSprings | cosai_mcp/catalog/template.py:49-57 | a template on which a value ending in an open brace makes the loop expand text that it put together itself |
| TemplateLimits.OrderSafeIffNoOpenEnd | cosai_mcp/catalog/template.py:49-62 | the loop means a simultaneous substitution on every template and in every order exactly when at most one variable is given or no value of an allowed name ends in an open brace |
| Utf8.RoundTrip | cosai_mcp/protocol.py:142 | decoding inverts encoding (section 3 of RFC 3629) |
| Utf8.DecodeIsExact | cosai_mcp/protocol.py:149 | decoding accepts nothing but what encoding produces |
| Utf8.CharMeans | cosai_mcp/protocol.py:142 | the bytes of a character, by the number of them, are its code point in the bit layout of section 3 of RFC 3629 |
| Base64.RoundTrip | cosai_mcp/protocol.py:142 | decoding inverts encoding (section 4 of RFC 4648) |
| Base64.GroupMeans | cosai_mcp/protocol.py:142 | three bytes are four characters of the alphabet that stand for the same 24 bits |
| Base64.OneByteMeans | cosai_mcp/protocol.py:142 | one last byte is two characters and two padding signs |
| Base64.TwoBytesMean | cosai_mcp/protocol.py:142 | two last bytes are three characters and one padding sign |
| HeaderCodec.RoundTrip | cosai_mcp/protocol.py:128-150 | decoding a header value inverts encoding it, for every string |
| HeaderCodec.Injective | cosai_mcp/protocol.py:128-142 | different values never share a header value |
| HeaderCodec.OutputIsFieldSafe | cosai_mcp/protocol.py:128-142 | the output is visible ASCII and tabs with nothing to strip at either end |
| HeaderCodec.GratuitousWrapDiffers | cosai_mcp/middleware/request_meta.py:253-261 | a plain value wrapped in Base64 decodes to it but is not its header value, so an exact comparison rejects it |
| Protocol.XMcpHeaderAnnotations | cosai_mcp/protocol.py:229-270 | the valid annotations of a schema, none if it is not a mapping |
| Protocol.ValidAnnotations | cosai_mcp/protocol.py:256-270 | the loop keeps the first annotation of each token name with a primitive target |
| Protocol.ValidAreDistinct | cosai_mcp/protocol.py:256-270 | valid annotations have names that differ in more than case |
| Declared.WalkedIff | cosai_mcp/protocol.py:229-255 | the walk finds exactly the annotated properties that a chain of at most 17 `properties` steps leads to |
| Declared.TokenIff | cosai_mcp/protocol.py:72 | a name matches the pattern exactly when it is a token (section 5.6.2 of RFC 9110), with or without a line feed behind it |
| Declared.PrimitiveIff | cosai_mcp/protocol.py:256-270 | a type is primitive exactly when it is one of three names, or a list of one of them beside nulls |
| Declared.DeclaredIff | cosai_mcp/protocol.py:256-270 | exactly the walked annotations count that come first under their token name, whatever its case, and have a primitive type |
| Protocol.XMcpParamHeaders | cosai_mcp/protocol.py:198-226 | exactly the headers of the annotations whose argument can be rendered, or in strict mode an error exactly when some text cannot be encoded |
| Envelope.HeaderMultimap | cosai_mcp/middleware/request_meta.py:127-143 | the multimap holds all values of every name in order, or there is a name that only aliases a routing header |
| EnvelopeCheck.RenderingValues | cosai_mcp/protocol.py:165-226 | what a body renders under each routing name |
| EnvelopeCheck.DeclaredRenderedOnce | cosai_mcp/protocol.py:214-226 | a declared parameter header is rendered once or not at all |
| WireText.IntReads | cosai_mcp/protocol.py:184-187 | an integer is written as a decimal text without leading zero that reads back to it |
| WireText.EncodedCarries | cosai_mcp/protocol.py:128-142 | plain text is its own header value; any other is wrapped, and decodes to what it was |
| WireText.ArgumentIsFound | cosai_mcp/protocol.py:217-222 | the argument of an annotation is what following its path key by key leads to, and null where it leads nowhere |
| WireText.RenderedText | cosai_mcp/protocol.py:179-226 | the values under a declared parameter header: "true" or "false", the decimal of an integer up to 2^53-1, the carried string, or none at all |
| EnvelopeCheck.LegacyGate | cosai_mcp/middleware/request_meta.py:207-221 | passes exactly the requests without modern routing headers and with at most one protocol version, a legacy one |
| EnvelopeCheck.CheckName | cosai_mcp/middleware/request_meta.py:248-264 | passes exactly when the name is a well-formed string and the header is its canonical encoding, or both are absent |
| EnvelopeCheck.CheckParams | cosai_mcp/middleware/request_meta.py:279-313 | passes exactly when every parameter header carried is rendered from the arguments and every annotated argument is null or renderable |
| EnvelopeCheck.AgreesInParts | cosai_mcp/middleware/request_meta.py:236-313 | agreement on all routing headers is agreement on version, method, name and parameters |
| EnvelopeCheck.Validate | cosai_mcp/middleware/request_meta.py:155-314 | accepts exactly the acceptable requests; the reason of a rejection is true of the request; the two fallback signals are given exactly to requests fit for a legacy handler |
| WireText.AcceptedRequestCarries | cosai_mcp/middleware/request_meta.py:223-314 | an accepted request carries its version, its method, its name and every annotated argument of its body in the matching header, as those texts, and no other parameter header |
| WireText.AliasFreeIff | cosai_mcp/middleware/request_meta.py:134-139 | a request is refused for an alias exactly when some name is not a routing name, but turns into one with dashes for underscores, or behind `http-` |
| WireText.LegacyShape | cosai_mcp/middleware/request_meta.py:207-221 | fit for a legacy handler is exactly a request with no routing header but the version, and that once at most, with one of the four legacy versions |
| EnvelopeRoundTrip.RenderedIsAcceptedIff | cosai_mcp/middleware/request_meta.py:106-143 | a well-formed request with exactly the headers its body renders is accepted exactly when no rendered name holds an underscore or ends in a line feed |
| EnvelopeRoundTrip.StripLowerNormalises | cosai_mcp/middleware/request_meta.py:135 | strip and lower do to header names that are tokens what the results on rendered names assume |
| EnvelopeRoundTrip.UserIdIsNeverAccepted | cosai_mcp/middleware/request_meta.py:136-139 | a schema whose calls are refused whatever the argument |
| MetaReconcile.AcceptsIff | cosai_mcp/middleware/request_meta.py:403-500 | accepts exactly when every top-level key passes, and at every depth below it every key passes and every container was within reach |
| MetaReconcile.TopPassesIff | cosai_mcp/middleware/request_meta.py:471-500 | the rule for each kind of top-level key, with its own limits on size and depth |
| MetaReconcile.KeyPassesIff | cosai_mcp/middleware/request_meta.py:438-454 | a key with a recognised name passes exactly when its claim does; any other exactly when it is approved or holds no identity word |
| MetaReconcile.ClaimPassesIff | cosai_mcp/middleware/request_meta.py:352-376 | a claim passes exactly when it restates what the principal is, by the first kind of name the key has |
| MetaReconcile.EveryClaimIsTruthful | cosai_mcp/middleware/request_meta.py:360-376 | in an accepted `_meta` every recognised identity key at every depth restates the principal, and no container is deeper than the limit of its key or too long to be inspected |
| MetaReconcile.AcceptanceIsMonotone | cosai_mcp/middleware/request_meta.py:352-376 | more scopes never turn acceptance into rejection |
| MetaReconcile.MetaWalk.Descend | cosai_mcp/middleware/request_meta.py:456-469 | appends to the shared list exactly the offending paths below a value |
| MetaReconcile.MetaWalk.Visit | cosai_mcp/middleware/request_meta.py:438-454 | appends exactly the offending paths of one key and its value |
| MetaReconcile.ReconcileMeta | cosai_mcp/middleware/request_meta.py:432-500 | returns the paths of all offending keys |
| Stack.NoOffenceIffTrusted | cosai_mcp/middleware/__init__.py:225-248 | nothing is reported exactly when every message of the body is a mapping and every `_meta` it carries is accepted |
| Stack.TrustedIffReconciled | cosai_mcp/middleware/__init__.py:225-248 | that is: the body is a mapping or a batch of mappings, and every `_meta` found under params, result or error data is a mapping that is accepted |
| Stack.NoMetaEscapes | cosai_mcp/middleware/__init__.py:225-248 | in such a body no claim in a `_meta` of those three places, at any depth, says what the principal is not |
| Stack.NoClaimEscapes | cosai_mcp/middleware/__init__.py:225-248 | in a body that gets past reconciliation no claim in any message, carrier or depth exceeds the principal |
| Stack.CoSAIStack.ReconcileMessage | cosai_mcp/middleware/__init__.py:226-248 | reports and audits the first offence of one message |
| Stack.CoSAIStack.CheckRequestEnvelope | cosai_mcp/middleware/__init__.py:168-268 | a verdict other than on claims only after all messages are reconciled; fallback signals only for trusted bodies without modern routing headers; every failure audited once |
| AuditChain.SameHeadOrCollision | cosai_mcp/middleware/audit.py:254-301 | for any hash, two logs that verify with one head hold the same sequence of entries or exhibit a collision or a preimage of the genesis value |
| AuditChain.SameHeadSameEntries | cosai_mcp/middleware/audit.py:254-301 | with a collision-free hash that never equals genesis, two logs that verify with one head hold the same sequence of entries |
| AuditChain.SomeHashIsIdeal | cosai_mcp/middleware/audit.py:135 | there is such a hash |
| AuditChain.TruncationNeedsAnchor | cosai_mcp/middleware/audit.py:215-252 | a truncated log verifies without an anchor, and the head tells it apart |
| AuditChain.EveryRunVerifies | cosai_mcp/middleware/audit.py:137-211 | every sequence of `log` calls and restarts yields an intact log with the logger's own head and count, holding the logged events in order |
| AuditChain.AuditLogger.constructor | cosai_mcp/middleware/audit.py:137-145 | a new or reopened log starts from the head and count of its file: the restart step of the runs |
| AuditChain.AuditLogger.LoadTail | cosai_mcp/middleware/audit.py:323-338 | the last stored hash and the number of parsable lines |
| AuditChain.AuditLogger.Log | cosai_mcp/middleware/audit.py:147-211 | the append step of the runs: one entry linked to the head; an intact file stays intact and a broken one broken |
| AuditChain.AuditLogger.VerifyChain | cosai_mcp/middleware/audit.py:254-301 | succeeds exactly on an intact file with the expected head, and otherwise names the first line where the chain breaks, or the number of entries when only the head differs |
| Results.ApplyBaseline | cosai_mcp/baseline.py:125-148 | marks exactly the accepted findings as suppressed and changes nothing else |
| ExitCodes.ExitCodeIgnoresOrder | cosai_mcp/api.py:414-503 | the exit code does not depend on the order of the results |
| ExitCodes.ExitCodeIs | cosai_mcp/api.py:414-503 | 2 exactly for a crash, an incomplete scan or nothing verified; else 1 exactly when a finding at or above the threshold or a failed scenario counts; else 0 |
| ExitCodes.BaselineChangesOnlyFindings | cosai_mcp/api.py:414-503 | accepting findings can change the exit code only when it was 1 |
| ExitCodes.BaselineCanLeaveNothingVerified | cosai_mcp/api.py:463-478 | a scan whose exit code a baseline turns from 1 into 2 |
| ExitCodes.BaselineDecides | cosai_mcp/api.py:414-503 | what a baseline makes of exit code 1: 2 exactly when no probe passed cleanly and all that is left to judge are errors, else 1 exactly when something not accepted still fails, else 0 |
| Assurance.ComputeOutcomes | cosai_mcp/assurance/evaluate.py:50-86 | the loops classify each linked test by its conclusive and inconclusive results, and list the failing probes under each failed one, in order |
| Verdicts.VerdictIs | cosai_mcp/assurance/evaluate.py:89-173 | each verdict exactly under its condition: FAIL when the control is required and a linked, verifying or optional test failed; the others by what ran, passed and was attested |
| Verdicts.LevelIs | cosai_mcp/assurance/evaluate.py:176-213 | NOT_MET exactly when some MUST control has such a failure, and the other levels by what its MUST controls lack |
| Assurance.MetIsEarned | cosai_mcp/assurance/evaluate.py:89-213 | a level is met only if no test of a MUST control failed conclusively, each required one has a conclusive result, and a control without evidence passed all its positive probes |
| Assurance.VerdictsIgnoreOrder | cosai_mcp/assurance/evaluate.py:50-173 | verdicts do not depend on the order of the results |
| Assurance.VerdictsIgnoreBaseline | cosai_mcp/assurance/evaluate.py:50-173 | accepting findings changes no verdict |
| Assurance.FailStays | cosai_mcp/assurance/evaluate.py:89-173 | more results, and more or less evidence, never take a failed verdict back |
| Assurance.NotMetStays | cosai_mcp/assurance/evaluate.py:176-213 | a level once not met stays not met |
| Assurance.EvidenceNeedsTests | cosai_mcp/assurance/evaluate.py:89-173 | evidence changes a verdict exactly when the control is required, no linked or optional test failed, and every required test ran; and then to attested |

## Left out

- Cryptography: AES-GCM, SHA-256, JWT and Ed25519 are ideal. `open` starts from authenticated claims, and the chain hash is any function that is never empty, of which some results ask that it has no collision and never equals the genesis value.
- `seal`, key handling and the token syntax that `open` parses first: a token that does not open has no claims.
- Clocks and randomness: time is an argument that does not decrease from one locked step to the next; generated handles and token ids are arguments that are never repeated.
- Thread interleavings inside a lock-protected method: each method is one atomic step.
- Rounding: times are real numbers.
- Dictionaries whose order is observable are sequences of their items in insertion order.
- `heapq`: by its contract, a list kept in expiry order; how ties are ordered is not modelled.
- Arguments of the wrong type, such as a principal that is not a string, where the code only rejects them.
- What an `on_revoke` callback does beside succeeding or raising.
- The regular-expression matching of `scrub`: its matches are an argument. Digits outside ASCII, which `isdigit` accepts, are not digits in `Luhn`.
- `fold_homoglyphs`, the name heuristics of `meta_identity.py` and the parsing of trace headers: function-valued arguments.
- The text of key paths in `MetaTrustError`: cleaning, sorting and the cap of 32.
- `check_shadowing` and the manifest baseline checker: easy members beside `check_tools`.
- WSGI mode, header names and values given as bytes, and headers of unsupported types.
- Stripping and lower-casing outside ASCII: a function-valued argument, of which `EnvelopeRoundTrip` uses only what it does to token names.
- JSON object keys with lone surrogates; string values with them are the `IllFormed` values.
- Base64 input with padding beyond what the encoder writes, which the standard decoder also accepts.
- `with_request_meta`, `tool_schema_violations`, era detection and the construction of `_meta`: easy members.
- `_substitute_value` and `substitute_probe_payload`: structural recursion around `_substitute_str`; of the latter only which names its strip leaves alone.
- Lines of the audit log that are JSON but not objects, undecodable bytes, failing writes, and two loggers on one file.
- `build_dag`, the entry filters and the cleaning of event fields in the audit module.
- The reasons and linked result lists of a control verdict, and which results of a level are reported beside it.
- `Baseline.load`, the CLI, reports, discovery, session and network code.
- `BudgetEnforcer`, `HeartbeatMonitor`, `authz.py`, `drift.py` and `supply_chain.py`: easy members or blocking waits.
- `check_manifest`, `check_tool_call` and `check_response` of the stack: calls of the other components in sequence.
- `wsgi_environ` and the audit record of a header type error in `check_request_envelope`.
