/** ValidatePayload and PerformL1validations: from a request body to accept, or an error list. */
module PayloadValidator {
  import opened Decimal
  import opened KeyNormalizer
  import opened PayloadGraph
  import opened RuleEvaluator
  import opened RuleReport
  import opened RuleTree
  import opened Wrappers

  const SELF := "_SELF"

  datatype Config = Config(stateFull: bool, debug: bool, onlyInvalid: bool, hideParentErrors: bool,
                           uniqueKey: Option<string>, hasStore: bool)

  /** The context fields read from the body next to the payload itself. */
  datatype Envelope = Envelope(transactionId: string, domain: string, version: string, coreVersion: string)

  /** A body that parsed: its value and its envelope. */
  datatype Parsed = Parsed(value: Json, envelope: Envelope)

  /** The data rules see besides the payload; null is no data. */
  datatype ExternalData = ExternalData(self: Json)

  datatype ApiError = ApiError(code: string, message: string)

  datatype Verdict =
    | Accepted
    | InvalidPayload
    | ValidationError(fault: Fault)
    | Rejected(errors: seq<ApiError>)
    | Crashed

  /** External data as a JSON object, which leaves an empty member out. */
  function Marshalled(data: ExternalData): Fields {
    if data.self == Null then map[] else map[SELF := data.self]
  }

  function Unmarshalled(fields: Fields): ExternalData {
    ExternalData(if SELF in fields then fields[SELF] else Null)
  }

  /** Loaded fields overridden by every provided one that is not null. */
  function Merged(loaded: Fields, provided: Fields): (merged: Fields)
    ensures merged.Keys == loaded.Keys + (set k | k in provided && provided[k] != Null)
  {
    loaded + (map k | k in provided && provided[k] != Null :: provided[k])
  }

  /** Go visits map entries in no fixed order; the result does not depend on it. Through the JSON
      objects and back, what was provided wins unless it is null. */
  method MergeExternalData(loaded: ExternalData, provided: ExternalData) returns (merged: ExternalData)
    ensures merged == if provided.self == Null then loaded else provided
  {
    var loadedMap := MergeFields(Marshalled(loaded), Marshalled(provided));
    merged := Unmarshalled(loadedMap);
  }

  method MergeFields(loaded: Fields, provided: Fields) returns (merged: Fields)
    ensures merged == Merged(loaded, provided)
  {
    merged := loaded;
    var todo := provided.Keys;
    while todo != {}
      invariant todo <= provided.Keys
      invariant forall k :: k in merged <==> k in loaded || (k in provided && k !in todo && provided[k] != Null)
      invariant forall k :: k in merged ==>
        merged[k] == if k in provided && k !in todo && provided[k] != Null then provided[k] else loaded[k]
      decreases |todo|
    {
      var key :| key in todo;
      if provided[key] != Null {
        merged := merged[key := provided[key]];
      }
      todo := todo - {key};
    }
    assert merged.Keys == Merged(loaded, provided).Keys;
  }

  /** The checks before any rule runs, in the order they are made. */
  function Preflight(action: string, tests: map<string, Rule>, config: Config, loaded: Option<ExternalData>)
    : Option<Fault>
  {
    if config.stateFull && !config.hasStore then Some(MissingStore)
    else if config.stateFull && config.uniqueKey in {None, Some("")} then Some(MissingKey)
    else if config.stateFull && loaded.None? then Some(LoadFailed)
    else if action !in tests then Some(UnknownAction)
    else None
  }

  /** The external data the rules see: the normalised payload under its own key, over what was loaded. */
  function ExternalFor(value: Json, config: Config, loaded: Option<ExternalData>): Fields {
    var self := ExternalData(Normalised(value));
    Marshalled(if config.stateFull && loaded.Some? && self.self == Null then loaded.value else self)
  }

  /** Loaded data never shows: for every payload but null the rules see that payload's normal form
      alone, with or without stateful validation, whatever was loaded. */
  lemma LoadedDataUnused(value: Json, config: Config, loaded: Option<ExternalData>)
    requires value != Null
    ensures ExternalFor(value, config, loaded) == map[SELF := Normalised(value)]
  {
    NormalisedIsNormal(value);
  }

  method PerformL1Validations(action: string, tests: map<string, Rule>, parsed: Parsed, config: Config,
                              loaded: Option<ExternalData>, query: Query)
    returns (outcome: Outcome)
    ensures var fault := Preflight(action, tests, config, loaded);
      outcome == if fault.Some? then Failed(fault.value) else
        Answer(tests[action].name, Flags(config.debug, config.hideParentErrors, config.onlyInvalid),
               Eval(tests[action], Queried(query, Normalised(parsed.value)), ExternalFor(parsed.value, config, loaded)))
  {
    if config.stateFull {
      if !config.hasStore {
        return Failed(MissingStore);
      }
      if config.uniqueKey.None? || config.uniqueKey.value == "" {
        return Failed(MissingKey);
      }
    }
    var normalizedPayload := NormalizeKeys(parsed.value);
    var externalData := ExternalData(normalizedPayload);
    if config.stateFull {
      if loaded.None? {
        return Failed(LoadFailed);
      }
      externalData := MergeExternalData(loaded.value, externalData);
    }
    if action !in tests {
      return Failed(UnknownAction);
    }
    var external := new JsonObject(Marshalled(externalData));
    var payload := Build(normalizedPayload, query);
    outcome := Tests(tests[action], payload, external,
                     Flags(config.debug, config.hideParentErrors, config.onlyInvalid),
                     Queried(query, normalizedPayload));
  }

  function ToErrors(outputs: seq<Output>): (errors: seq<ApiError>)
    ensures |errors| == |outputs|
    ensures forall i :: 0 <= i < |errors| ==> errors[i] == ApiError(Itoa(outputs[i].code), outputs[i].description)
  {
    seq(|outputs|, i requires 0 <= i < |outputs| => ApiError(Itoa(outputs[i].code), outputs[i].description))
  }

  method CollectErrors(outputs: seq<Output>) returns (errors: seq<ApiError>)
    ensures errors == ToErrors(outputs)
  {
    errors := [];
    for i := 0 to |outputs|
      invariant errors == ToErrors(outputs[..i])
    {
      errors := errors + [ApiError(Itoa(outputs[i].code), outputs[i].description)];
    }
    assert outputs[..|outputs|] == outputs;
  }

  /** The closing entry, which points at the documentation for the payload's domain and version. */
  function DocLink(subscriberId: string, envelope: Envelope): ApiError {
    var host := if subscriberId == "" then "workbench.ondc.tech" else subscriberId;
    var version := if envelope.version == "" then envelope.coreVersion else envelope.version;
    ApiError("", "for full list of validations refer https://" + host
                 + "/validations/developer-guide/" + envelope.domain + "/" + version)
  }

  function FixedConfig(stateFull: bool, debug: bool, envelope: Envelope): Config {
    Config(stateFull, debug, true, true, Some(envelope.transactionId), true)
  }

  function VerdictOf(outcome: Outcome, link: ApiError): Verdict {
    match outcome
    case Panicked => Crashed
    case Failed(fault) => ValidationError(fault)
    case Report(outputs) =>
      if outputs == [] || outputs[0].valid then Accepted else Rejected(ToErrors(outputs) + [link])
  }

  /** The errors for the failing leaves: code 30000 and the leaf's own description, in declaration
      order of the leaves, then the documentation link. */
  function LeafErrors(rule: Rule, doc: Document, external: Fields, link: ApiError): seq<ApiError> {
    FailingPathsExact(rule, doc, external);
    var paths := FailingPaths(rule, doc, external);
    assert forall i :: 0 <= i < |paths| ==> paths[i] in paths;
    assert forall i :: 0 <= i < |paths| ==> FailsAt(rule, paths[i], doc, external);
    seq(|paths|, i requires 0 <= i < |paths| =>
      ApiError("30000", LeafAt(rule, paths[i], doc, external).description)) + [link]
  }

  method ValidatePayload(endpoint: string, parsed: Option<Parsed>, tests: map<string, Rule>,
                         stateFull: bool, debug: bool, loaded: Option<ExternalData>, subscriberId: string,
                         query: Query)
    returns (verdict: Verdict)
    ensures verdict == InvalidPayload <==> parsed.None? || parsed.value.envelope.transactionId == ""
    ensures verdict != InvalidPayload ==>
      var config := FixedConfig(stateFull, debug, parsed.value.envelope);
      var doc := Queried(query, Normalised(parsed.value.value));
      var external := ExternalFor(parsed.value.value, config, loaded);
      var link := DocLink(subscriberId, parsed.value.envelope);
      && (stateFull && loaded.None? ==> verdict == ValidationError(LoadFailed))
      && (!(stateFull && loaded.None?) && endpoint !in tests ==> verdict == ValidationError(UnknownAction))
      && (!(stateFull && loaded.None?) && endpoint in tests ==>
            var rule := tests[endpoint];
            var evaluation := Eval(rule, doc, external);
            && (evaluation.Err? ==> verdict == ValidationError(BadScope(evaluation.error)))
            && (evaluation.Ok? && WellDescribed(rule) ==>
                  verdict == if FailingPaths(rule, doc, external) == [] then Accepted
                             else Rejected(LeafErrors(rule, doc, external, link))))
  {
    if parsed.None? || parsed.value.envelope.transactionId == "" {
      return InvalidPayload;
    }
    var envelope := parsed.value.envelope;
    var config := FixedConfig(stateFull, debug, envelope);
    var outcome := PerformL1Validations(endpoint, tests, parsed.value, config, loaded, query);
    ghost var doc := Queried(query, Normalised(parsed.value.value));
    ghost var external := ExternalFor(parsed.value.value, config, loaded);
    if endpoint in tests && WellDescribed(tests[endpoint]) {
      VerdictExactly(tests[endpoint], doc, external, debug, DocLink(subscriberId, envelope));
    }
    match outcome
    case Panicked => return Crashed;
    case Failed(fault) => return ValidationError(fault);
    case Report(result) =>
      if |result| > 0 {
        if result[0].valid {
          return Accepted;
        }
        var ondcErrors := CollectErrors(result);
        ondcErrors := ondcErrors + [DocLink(subscriberId, envelope)];
        return Rejected(ondcErrors);
      }
      return Accepted;
  }

  lemma CodeText()
    ensures Itoa(CODE_INVALID) == "30000"
  {
  }

  /** End to end: accepted exactly when no reached leaf fails, else exactly the failing leaves. */
  lemma VerdictExactly(rule: Rule, doc: Document, external: Fields, debug: bool, link: ApiError)
    requires WellDescribed(rule)
    ensures var evaluation := Eval(rule, doc, external);
      VerdictOf(Answer(rule.name, Flags(debug, true, true), evaluation), link) ==
        if evaluation.Err? then ValidationError(BadScope(evaluation.error))
        else if FailingPaths(rule, doc, external) == [] then Accepted
        else Rejected(LeafErrors(rule, doc, external, link))
  {
    if Eval(rule, doc, external).Ok? {
      ReportExactly(rule, doc, external, debug);
      FailingPathsExact(rule, doc, external);
      CodeText();
      var failures := Failures(rule, doc, external);
      assert ToErrors(Shown(failures, debug)) + [link] == LeafErrors(rule, doc, external, link);
    }
  }

  /** Accepted exactly when no visited rule meets something that is not an object, and for every
      reached leaf each object in its scope that it does not skip satisfies its check. */
  lemma AcceptedExactly(rule: Rule, doc: Document, external: Fields, debug: bool, link: ApiError)
    requires WellDescribed(rule)
    ensures VerdictOf(Answer(rule.name, Flags(debug, true, true), Eval(rule, doc, external)), link) == Accepted <==>
      && (forall p: Path :: !TripsAt(rule, p, doc, external))
      && (forall p: Path, f: Fields | Reached(rule, p, doc, external) ::
            var leaf := LeafAt(rule, p, doc, external);
            ObjectElement(f) in doc(leaf.scope) && !leaf.skip(f["_EXTERNAL" := Object(external)]) ==>
              leaf.check(f["_EXTERNAL" := Object(external)]))
  {
    VerdictExactly(rule, doc, external, debug, link);
    EvalErrsExactly(rule, doc, external);
    if Eval(rule, doc, external).Ok? {
      NothingFails(rule, doc, external);
    }
  }

  /** Which fault comes before any rule runs, exactly. */
  lemma PreflightExactly(action: string, tests: map<string, Rule>, config: Config, loaded: Option<ExternalData>)
    ensures var fault := Preflight(action, tests, config, loaded);
      && (fault == Some(MissingStore) <==> config.stateFull && !config.hasStore)
      && (fault == Some(MissingKey) <==>
            config.stateFull && config.hasStore && (config.uniqueKey == None || config.uniqueKey == Some("")))
      && (fault == Some(LoadFailed) <==>
            config.stateFull && config.hasStore && config.uniqueKey !in {None, Some("")} && loaded == None)
      && (fault == Some(UnknownAction) <==>
            action !in tests && fault !in {Some(MissingStore), Some(MissingKey), Some(LoadFailed)})
      && (fault == None ==> action in tests)
  {
  }

  /** The closing link, part by part: its host, then the payload's domain, then its version, or core version. */
  lemma DocLinkParts(subscriberId: string, envelope: Envelope, host: string, version: string)
    requires host == if subscriberId != "" then subscriberId else "workbench.ondc.tech"
    requires version == if envelope.version != "" then envelope.version else envelope.coreVersion
    ensures var link := DocLink(subscriberId, envelope);
      && link.code == ""
      && "for full list of validations refer https://" + host + "/validations/developer-guide/" <= link.message
      && link.message[|link.message| - |envelope.domain + "/" + version|..] == envelope.domain + "/" + version
      && |link.message| == |"for full list of validations refer https://" + host + "/validations/developer-guide/"|
                           + |envelope.domain + "/" + version|
  {
  }
}
