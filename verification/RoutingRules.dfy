/** Routing rules and what a rule list means: which rule decides for a domain, version and endpoint. */
module RoutingRules {
  import opened GoPath
  import opened Wrappers

  const URL := "url"
  const JSON_PATH := "jsonPath"
  const PUBLISHER := "publisher"
  const BPP := "bpp"
  const BAP := "bap"

  /** A parsed URL: its path, and everything else. */
  datatype UrlValue = UrlValue(path: string, rest: string)

  /** url.Parse. */
  type Parser = string -> Option<UrlValue>

  datatype Target = Target(url: string, jsonPath: string, publisherId: string, excludeAction: bool)

  datatype Rule = Rule(domain: string, version: string, targetType: string, target: Target,
                       endpoints: seq<string>, actAsProxy: Option<bool>)

  datatype RouteValue = RouteValue(targetType: string, url: Option<UrlValue>, publisherId: string,
                                   jsonPath: string, actAsProxy: bool)

  function WithEndpoint(u: UrlValue, endpoint: string): UrlValue {
    u.(path := JoinPath(u.path, endpoint))
  }

  predicate Proxies(rule: Rule) {
    rule.actAsProxy.None? || rule.actAsProxy.value
  }

  /** validateRules accepts the rule. */
  predicate Accepted(rule: Rule, parse: Parser) {
    rule.version != "" && rule.targetType != "" &&
    if rule.targetType == URL then rule.target.url != "" && parse(rule.target.url).Some?
    else if rule.targetType == PUBLISHER then rule.target.publisherId != ""
    else if rule.targetType in {BPP, BAP} then rule.target.url != "" ==> parse(rule.target.url).Some?
    else rule.targetType == JSON_PATH && rule.target.jsonPath != ""
  }

  /** The route a rule gives an endpoint: an error when its URL does not parse, and a nil route for
      a target type the builder does not know. */
  function BuildRoute(rule: Rule, endpoint: string, parse: Parser): Result<Option<RouteValue>, string> {
    var proxy := Proxies(rule);
    var parsed := parse(rule.target.url);
    if rule.targetType == PUBLISHER then
      Ok(Some(RouteValue(PUBLISHER, None, rule.target.publisherId, "", proxy)))
    else if rule.targetType == URL then
      if parsed.None? then Err(rule.target.url)
      else
        var u := if rule.target.excludeAction then parsed.value else WithEndpoint(parsed.value, endpoint);
        Ok(Some(RouteValue(URL, Some(u), "", "", proxy)))
    else if rule.targetType in {BPP, BAP} then
      if rule.target.url == "" then Ok(Some(RouteValue(rule.targetType, None, "", "", proxy)))
      else if parsed.None? then Err(rule.target.url)
      else Ok(Some(RouteValue(rule.targetType, Some(WithEndpoint(parsed.value, endpoint)), "", "", proxy)))
    else if rule.targetType == JSON_PATH then
      Ok(Some(RouteValue(JSON_PATH, None, "", rule.target.jsonPath, proxy)))
    else Ok(None)
  }

  /** domain -> version -> endpoint -> entry. */
  type Index<T> = map<string, map<string, map<string, T>>>

  /** Makes sure the maps for a domain and version exist. */
  function Opened<T>(index: Index<T>, d: string, v: string): (r: Index<T>)
    ensures d in r && v in r[d]
  {
    var versions := if d in index then index[d] else map[];
    index[d := if v in versions then versions else versions[v := map[]]]
  }

  function Stored<T>(index: Index<T>, d: string, v: string, e: string, entry: T): Index<T>
    requires d in index && v in index[d]
  {
    index[d := index[d][v := index[d][v][e := entry]]]
  }

  /** Adds a rule's first k endpoints to an index that has its domain and version. */
  function AddEndpoints(index: Index<Option<RouteValue>>, rule: Rule, k: nat, parse: Parser)
    : (r: Result<Index<Option<RouteValue>>, string>)
    requires k <= |rule.endpoints| && rule.domain in index && rule.version in index[rule.domain]
    ensures r.Ok? ==> rule.domain in r.value && rule.version in r.value[rule.domain]
    decreases k
  {
    if k == 0 then Ok(index)
    else
      var before := AddEndpoints(index, rule, k - 1, parse);
      var route := BuildRoute(rule, rule.endpoints[k - 1], parse);
      if before.Err? then before
      else if route.Err? then Err(route.error)
      else Ok(Stored(before.value, rule.domain, rule.version, rule.endpoints[k - 1], route.value))
  }

  /** The index a rule list builds. */
  function Built(rules: seq<Rule>, parse: Parser): Result<Index<Option<RouteValue>>, string> {
    if rules == [] then Ok(map[])
    else
      var before, rule := Built(rules[..|rules| - 1], parse), rules[|rules| - 1];
      if before.Err? then before
      else AddEndpoints(Opened(before.value, rule.domain, rule.version), rule, |rule.endpoints|, parse)
  }

  // ---- The linear reading of a rule list ----

  predicate Matches(rule: Rule, d: string, v: string) {
    rule.domain == d && rule.version == v
  }

  predicate NamesDomain(rules: seq<Rule>, d: string) {
    exists r :: r in rules && r.domain == d
  }

  predicate NamesVersion(rules: seq<Rule>, d: string, v: string) {
    exists r :: r in rules && Matches(r, d, v)
  }

  /** Scanning the list from its end for a rule that lists the endpoint. */
  function Scan(rules: seq<Rule>, d: string, v: string, e: string): Option<Rule> {
    if rules == [] then None
    else
      var last := rules[|rules| - 1];
      if Matches(last, d, v) && e in last.endpoints then Some(last) else Scan(rules[..|rules| - 1], d, v, e)
  }

  function Lookup<T>(index: Index<T>, d: string, v: string, e: string): Option<T> {
    if d in index && v in index[d] && e in index[d][v] then Some(index[d][v][e]) else None
  }

  function Expected(rules: seq<Rule>, d: string, v: string, e: string, parse: Parser): Option<Option<RouteValue>> {
    match Scan(rules, d, v, e)
    case None => None
    case Some(rule) => match BuildRoute(rule, e, parse) { case Ok(route) => Some(route) case Err(_) => None }
  }

  /** The index says what the scan says: a domain or version is there when some rule names it,
      endpoints or not, and the entry is the route of the last rule that lists the endpoint. */
  predicate AgreesAt(index: Index<Option<RouteValue>>, rules: seq<Rule>, parse: Parser,
                     d: string, v: string, e: string)
  {
    && (d in index <==> NamesDomain(rules, d))
    && ((d in index && v in index[d]) <==> NamesVersion(rules, d, v))
    && Lookup(index, d, v, e) == Expected(rules, d, v, e, parse)
  }

  /** The rule with only its first k endpoints. */
  function Cut(rule: Rule, k: nat): Rule
    requires k <= |rule.endpoints|
  {
    rule.(endpoints := rule.endpoints[..k])
  }

  lemma NamesSnoc(rules: seq<Rule>, rule: Rule, d: string, v: string)
    ensures NamesDomain(rules + [rule], d) <==> NamesDomain(rules, d) || rule.domain == d
    ensures NamesVersion(rules + [rule], d, v) <==> NamesVersion(rules, d, v) || Matches(rule, d, v)
  {
  }

  lemma ScanSnoc(rules: seq<Rule>, rule: Rule, d: string, v: string, e: string)
    ensures Scan(rules + [rule], d, v, e) ==
      if Matches(rule, d, v) && e in rule.endpoints then Some(rule) else Scan(rules, d, v, e)
  {
  }

  lemma StoredLookup<T>(index: Index<T>, d0: string, v0: string, e0: string, entry: T, d: string, v: string, e: string)
    requires d0 in index && v0 in index[d0]
    ensures Lookup(Stored(index, d0, v0, e0, entry), d, v, e) ==
      if d == d0 && v == v0 && e == e0 then Some(entry) else Lookup(index, d, v, e)
  {
  }

  lemma ScanCut(rules: seq<Rule>, rule: Rule, k: nat, d: string, v: string, e: string, parse: Parser)
    requires k < |rule.endpoints|
    ensures Expected(rules + [Cut(rule, k + 1)], d, v, e, parse) ==
      if Matches(rule, d, v) && e == rule.endpoints[k]
      then match BuildRoute(rule, e, parse) { case Ok(route) => Some(route) case Err(_) => None }
      else Expected(rules + [Cut(rule, k)], d, v, e, parse)
  {
  }

  lemma OpenedAgreesAt(index: Index<Option<RouteValue>>, rules: seq<Rule>, rule: Rule, parse: Parser,
                       d: string, v: string, e: string)
    requires AgreesAt(index, rules, parse, d, v, e)
    ensures AgreesAt(Opened(index, rule.domain, rule.version), rules + [Cut(rule, 0)], parse, d, v, e)
  {
    NamesSnoc(rules, Cut(rule, 0), d, v);
    ScanSnoc(rules, Cut(rule, 0), d, v, e);
  }

  lemma StoredAgreesAt(index: Index<Option<RouteValue>>, rules: seq<Rule>, rule: Rule, k: nat,
                       entry: Option<RouteValue>, parse: Parser, d: string, v: string, e: string)
    requires 0 < k <= |rule.endpoints| && AgreesAt(index, rules + [Cut(rule, k - 1)], parse, d, v, e)
    requires rule.domain in index && rule.version in index[rule.domain]
    requires BuildRoute(rule, rule.endpoints[k - 1], parse) == Ok(entry)
    ensures AgreesAt(Stored(index, rule.domain, rule.version, rule.endpoints[k - 1], entry),
                     rules + [Cut(rule, k)], parse, d, v, e)
  {
    NamesSnoc(rules, Cut(rule, k - 1), d, v);
    NamesSnoc(rules, Cut(rule, k), d, v);
    StoredLookup(index, rule.domain, rule.version, rule.endpoints[k - 1], entry, d, v, e);
    ScanCut(rules, rule, k - 1, d, v, e, parse);
  }

  lemma {:induction false} AddAgreesAt(index: Index<Option<RouteValue>>, rules: seq<Rule>, rule: Rule, k: nat,
                                       parse: Parser, d: string, v: string, e: string)
    requires k <= |rule.endpoints| && rule.domain in index && rule.version in index[rule.domain]
    requires AgreesAt(index, rules + [Cut(rule, 0)], parse, d, v, e)
    requires AddEndpoints(index, rule, k, parse).Ok?
    ensures AgreesAt(AddEndpoints(index, rule, k, parse).value, rules + [Cut(rule, k)], parse, d, v, e)
    decreases k
  {
    if k > 0 {
      var before, entry := AddUnfolds(index, rule, k, parse);
      AddAgreesAt(index, rules, rule, k - 1, parse, d, v, e);
      StoredAgreesAt(before, rules, rule, k, entry, parse, d, v, e);
    }
  }

  lemma AddUnfolds(index: Index<Option<RouteValue>>, rule: Rule, k: nat, parse: Parser)
    returns (before: Index<Option<RouteValue>>, entry: Option<RouteValue>)
    requires 0 < k <= |rule.endpoints| && rule.domain in index && rule.version in index[rule.domain]
    requires AddEndpoints(index, rule, k, parse).Ok?
    ensures AddEndpoints(index, rule, k - 1, parse) == Ok(before)
    ensures BuildRoute(rule, rule.endpoints[k - 1], parse) == Ok(entry)
    ensures rule.domain in before && rule.version in before[rule.domain]
    ensures AddEndpoints(index, rule, k, parse)
         == Ok(Stored(before, rule.domain, rule.version, rule.endpoints[k - 1], entry))
  {
    before := AddEndpoints(index, rule, k - 1, parse).value;
    entry := BuildRoute(rule, rule.endpoints[k - 1], parse).value;
  }

  lemma {:induction false} BuiltAgreesAt(rules: seq<Rule>, parse: Parser, d: string, v: string, e: string)
    requires Built(rules, parse).Ok?
    ensures AgreesAt(Built(rules, parse).value, rules, parse, d, v, e)
  {
    if rules != [] {
      var front, rule := rules[..|rules| - 1], rules[|rules| - 1];
      var before := Built(front, parse).value;
      BuiltAgreesAt(front, parse, d, v, e);
      OpenedAgreesAt(before, front, rule, parse, d, v, e);
      AddAgreesAt(Opened(before, rule.domain, rule.version), front, rule, |rule.endpoints|, parse, d, v, e);
      assert rule.endpoints[..|rule.endpoints|] == rule.endpoints;
      assert front + [Cut(rule, |rule.endpoints|)] == rules;
    }
  }

  /** The three-level index built from a rule list agrees with scanning the list, everywhere. */
  lemma IndexRefinesScan(rules: seq<Rule>, parse: Parser)
    requires Built(rules, parse).Ok?
    ensures forall d, v, e :: AgreesAt(Built(rules, parse).value, rules, parse, d, v, e)
  {
    forall d, v, e ensures AgreesAt(Built(rules, parse).value, rules, parse, d, v, e) {
      BuiltAgreesAt(rules, parse, d, v, e);
    }
  }

  // ---- Validated rules ----

  /** Every endpoint has a route to go to, not a nil one. */
  ghost predicate NoNil(index: Index<Option<RouteValue>>) {
    forall d, v, e :: Lookup(index, d, v, e) != Some(None)
  }

  predicate AllAccepted(rules: seq<Rule>, parse: Parser) {
    forall r :: r in rules ==> Accepted(r, parse)
  }

  lemma AcceptedBuilds(rule: Rule, endpoint: string, parse: Parser)
    requires Accepted(rule, parse)
    ensures BuildRoute(rule, endpoint, parse).Ok? && BuildRoute(rule, endpoint, parse).value.Some?
  {
  }

  lemma {:induction false} AddBuilds(index: Index<Option<RouteValue>>, rule: Rule, k: nat, parse: Parser)
    requires Accepted(rule, parse) && k <= |rule.endpoints|
    requires rule.domain in index && rule.version in index[rule.domain]
    ensures AddEndpoints(index, rule, k, parse).Ok?
    decreases k
  {
    if k > 0 {
      AddBuilds(index, rule, k - 1, parse);
      AcceptedBuilds(rule, rule.endpoints[k - 1], parse);
    }
  }

  /** Once validation accepts the rules, building the index cannot fail. */
  lemma {:induction false} ValidatedBuilds(rules: seq<Rule>, parse: Parser)
    requires AllAccepted(rules, parse)
    ensures Built(rules, parse).Ok?
  {
    if rules != [] {
      var front, rule := rules[..|rules| - 1], rules[|rules| - 1];
      assert rule in rules;
      ValidatedBuilds(front, parse);
      AddBuilds(Opened(Built(front, parse).value, rule.domain, rule.version), rule, |rule.endpoints|, parse);
    }
  }

  lemma {:induction false} ScanFinds(rules: seq<Rule>, d: string, v: string, e: string)
    ensures match Scan(rules, d, v, e)
      case None => forall r :: r in rules ==> !(Matches(r, d, v) && e in r.endpoints)
      case Some(r) => r in rules && Matches(r, d, v) && e in r.endpoints
  {
    if rules != [] {
      ScanFinds(rules[..|rules| - 1], d, v, e);
      assert rules == rules[..|rules| - 1] + [rules[|rules| - 1]];
    }
  }

  /** And it holds no nil route. */
  lemma ValidatedHasNoNil(rules: seq<Rule>, parse: Parser)
    requires AllAccepted(rules, parse)
    ensures Built(rules, parse).Ok? && NoNil(Built(rules, parse).value)
  {
    ValidatedBuilds(rules, parse);
    var index := Built(rules, parse).value;
    forall d, v, e ensures Lookup(index, d, v, e) != Some(None) {
      ScanFinds(rules, d, v, e);
      BuiltAgreesAt(rules, parse, d, v, e);
      match Scan(rules, d, v, e)
      case None =>
      case Some(rule) => AcceptedBuilds(rule, e, parse);
    }
  }

  /** Validation accepts exactly the rules that name a version and carry what their type needs, and
      then a route for every endpoint. */
  lemma AcceptedExactly(rule: Rule, parse: Parser)
    ensures Accepted(rule, parse) <==>
      && rule.version != ""
      && (rule.targetType == "url" ==> rule.target.url != "")
      && (rule.targetType == "publisher" ==> rule.target.publisherId != "")
      && (rule.targetType == "jsonPath" ==> rule.target.jsonPath != "")
      && (forall e :: BuildRoute(rule, e, parse).Ok? && BuildRoute(rule, e, parse).value.Some?)
  {
    assert BuildRoute(rule, "", parse) == BuildRoute(rule, "", parse);
  }

  /** Rule k lists the endpoint for the domain and version, and no later rule does. */
  predicate Decides(rules: seq<Rule>, k: nat, d: string, v: string, e: string) {
    && k < |rules| && rules[k].domain == d && rules[k].version == v && e in rules[k].endpoints
    && forall j :: k < j < |rules| ==> !(rules[j].domain == d && rules[j].version == v && e in rules[j].endpoints)
  }

  /** The scan gives the last rule that lists the endpoint. */
  lemma {:induction false} ScanIsLast(rules: seq<Rule>, k: nat, d: string, v: string, e: string)
    requires Decides(rules, k, d, v, e)
    ensures Scan(rules, d, v, e) == Some(rules[k])
  {
    if k < |rules| - 1 {
      ScanIsLast(rules[..|rules| - 1], k, d, v, e);
    }
  }
}
