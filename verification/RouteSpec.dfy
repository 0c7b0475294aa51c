/** What the router answers, as a function of the index, the override URLs and the request. */
module RouteSpec {
  import opened GoPath
  import opened RoutingRules
  import opened Text
  import opened Wrappers

  /** The context fields of the body; version falls back to core_version. */
  datatype Body = Body(domain: string, version: string, coreVersion: string, bppUri: string, bapUri: string)

  /** A request: its URL, its parsed body if it parses, whether the HTTP request itself is at hand,
      its cookies, and what a JSONPath extracts from it when that is a string. */
  datatype Request = Request(url: UrlValue, body: Option<Body>, attached: bool,
                             cookies: map<string, string>, extracted: string -> Option<string>)

  /** The three URLs from the environment. */
  datatype Overrides = Overrides(care: Option<UrlValue>, tunnel: Option<UrlValue>, gateway: Option<UrlValue>)

  /** url.Parse, and (*URL).Parse, which resolves a reference against the request's own URL. */
  datatype Urls = Urls(parse: Parser, resolve: (UrlValue, string) -> Option<UrlValue>)

  datatype RouteError =
    | BadBody | NoDomain | NoVersion | NoEndpoint | NilRoute
    | NotConfigured(name: string) | NoDestination | BadUri | BadExtract

  /** One override URL from the environment: blank is none, and text that does not parse an error. */
  function FromEnvironment(env: string -> string, name: string, parse: Parser): Result<Option<UrlValue>, string> {
    var text := TrimSpace(env(name));
    if text == "" then Ok(None)
    else match parse(text)
      case None => Err(name)
      case Some(u) => Ok(Some(u))
  }

  /** All three, or the name of the first that does not parse. */
  function Configured(env: string -> string, parse: Parser): Result<Overrides, string> {
    var care, tunnel, gateway := FromEnvironment(env, "CARE_URL", parse), FromEnvironment(env, "FIS_TUNNEL_URL", parse),
                                 FromEnvironment(env, "GATEWAY_URL", parse);
    if care.Err? then Err(care.error)
    else if tunnel.Err? then Err(tunnel.error)
    else if gateway.Err? then Err(gateway.error)
    else Ok(Overrides(care.value, tunnel.value, gateway.value))
  }

  /** Reading a file and parsing it as a rule list. */
  datatype Loader = Loader(read: string -> Option<string>, unmarshal: string -> Option<seq<Rule>>)

  datatype StartError = NoConfig | BadOverride(name: string) | EmptyPath | Unreadable | BadYaml | InvalidRules

  function RulesAt(path: string, loader: Loader, parse: Parser): Result<seq<Rule>, StartError> {
    if path == "" then Err(EmptyPath)
    else match loader.read(path)
      case None => Err(Unreadable)
      case Some(text) => match loader.unmarshal(text)
        case None => Err(BadYaml)
        case Some(rules) => if AllAccepted(rules, parse) then Ok(rules) else Err(InvalidRules)
  }

  type Answer = Result<RouteValue, RouteError>

  const CARE_ENDPOINTS := {"issue", "on_issue", "issue_status", "on_issue_status"}

  function Version(body: Body): string {
    if body.version == "" then body.coreVersion else body.version
  }

  predicate CookieSet(request: Request, name: string) {
    name in request.cookies && request.cookies[name] == "true"
  }

  function ProxyTo(u: UrlValue, endpoint: string): RouteValue {
    RouteValue(URL, Some(WithEndpoint(u, endpoint)), "", "", true)
  }

  function OverrideTo(u: Option<UrlValue>, endpoint: string, name: string): Answer {
    if u.None? then Err(NotConfigured(name)) else Ok(ProxyTo(u.value, endpoint))
  }

  /** A session override of the matched route, if one applies. */
  function Overridden(overrides: Overrides, request: Request, route: RouteValue, endpoint: string): Option<Answer> {
    if !request.attached || !route.actAsProxy then None
    else if endpoint in CARE_ENDPOINTS && CookieSet(request, "use_care") then
      Some(OverrideTo(overrides.care, endpoint, "CARE_URL"))
    else if endpoint == "search" && CookieSet(request, "use_gateway") then
      Some(OverrideTo(overrides.gateway, endpoint, "GATEWAY_URL"))
    else if CookieSet(request, "use_tunnel_for_fis") then
      Some(OverrideTo(overrides.tunnel, endpoint, "FIS_TUNNEL_URL"))
    else None
  }

  /** bpp and bap targets: the URI in the body, or the rule's own URL. */
  function Mapped(route: RouteValue, uri: string, endpoint: string, urls: Urls): Answer {
    var target := TrimSpace(uri);
    if target == "" then
      if route.url.None? then Err(NoDestination)
      else Ok(RouteValue(URL, route.url, "", "", route.actAsProxy))
    else match urls.parse(target)
      case None => Err(BadUri)
      case Some(u) => Ok(RouteValue(URL, Some(WithEndpoint(u, endpoint)), "", "", route.actAsProxy))
  }

  function Extracted(route: RouteValue, request: Request, endpoint: string, urls: Urls): Answer {
    match request.extracted(route.jsonPath)
    case None => Err(BadExtract)
    case Some(text) =>
      if TrimSpace(text) == "" then Err(BadExtract)
      else match urls.resolve(request.url, text)
        case None => Err(BadUri)
        case Some(u) => Ok(RouteValue(URL, Some(WithEndpoint(u, endpoint)), "", "", route.actAsProxy))
  }

  function Destination(route: RouteValue, request: Request, body: Body, endpoint: string, urls: Urls): Answer {
    if route.targetType == BPP then Mapped(route, body.bppUri, endpoint, urls)
    else if route.targetType == BAP then Mapped(route, body.bapUri, endpoint, urls)
    else if route.targetType == JSON_PATH then Extracted(route, request, endpoint, urls)
    else Ok(route)
  }

  function Find(index: Index<Option<RouteValue>>, d: string, v: string, e: string): Answer {
    if d !in index then Err(NoDomain)
    else if v !in index[d] then Err(NoVersion)
    else if e !in index[d][v] then Err(NoEndpoint)
    else match index[d][v][e] { case None => Err(NilRoute) case Some(route) => Ok(route) }
  }

  function Routed(index: Index<Option<RouteValue>>, overrides: Overrides, request: Request, urls: Urls): Answer {
    if request.body.None? then Err(BadBody)
    else
      var body, endpoint := request.body.value, Base(request.url.path);
      match Find(index, body.domain, Version(body), endpoint)
      case Err(error) => Err(error)
      case Ok(route) =>
        match Overridden(overrides, request, route, endpoint)
        case Some(answer) => answer
        case None => Destination(route, request, body, endpoint, urls)
  }

  // ---- What the answers guarantee ----

  predicate EndsIn(answer: Answer, endpoint: string) {
    answer.Ok? && answer.value.url.Some? ==> Base(answer.value.url.value.path) == endpoint
  }

  /** The session asks for an override of the endpoint. */
  predicate SessionOverrides(request: Request, endpoint: string) {
    request.attached &&
    ((endpoint in CARE_ENDPOINTS && CookieSet(request, "use_care"))
     || (endpoint == "search" && CookieSet(request, "use_gateway"))
     || CookieSet(request, "use_tunnel_for_fis"))
  }

  /** The rule that decides sends its URL on unchanged: it excludes the action, and no override applies. */
  predicate KeepsUrl(rules: seq<Rule>, d: string, v: string, e: string, request: Request) {
    var rule := Scan(rules, d, v, e);
    rule.Some? && rule.value.targetType == URL && rule.value.target.excludeAction
    && !(Proxies(rule.value) && SessionOverrides(request, e))
  }

  /** The endpoint is the last element of the deciding rule's own URL. */
  predicate UrlEndsIn(rules: seq<Rule>, d: string, v: string, e: string, parse: Parser) {
    var rule := Scan(rules, d, v, e);
    rule.Some? && parse(rule.value.target.url).Some? ==> Base(parse(rule.value.target.url).value.path) == e
  }

  lemma OverriddenExactly(overrides: Overrides, request: Request, route: RouteValue, e: string)
    ensures Overridden(overrides, request, route, e).Some? <==> route.actAsProxy && SessionOverrides(request, e)
  {
  }

  lemma OverrideToEnds(u: Option<UrlValue>, e: string, name: string)
    requires Plain(e)
    ensures EndsIn(OverrideTo(u, e, name), e)
  {
    if u.Some? { BaseOfJoinPath(u.value.path, e); }
  }

  lemma OverrideEnds(overrides: Overrides, request: Request, route: RouteValue, e: string)
    requires Plain(e)
    ensures var o := Overridden(overrides, request, route, e); o.Some? ==> EndsIn(o.value, e)
  {
    OverrideToEnds(overrides.care, e, "CARE_URL");
    OverrideToEnds(overrides.gateway, e, "GATEWAY_URL");
    OverrideToEnds(overrides.tunnel, e, "FIS_TUNNEL_URL");
  }

  lemma MappedEnds(route: RouteValue, uri: string, e: string, urls: Urls)
    requires Plain(e) && EndsIn(Ok(route), e)
    ensures EndsIn(Mapped(route, uri, e, urls), e)
  {
    var parsed := urls.parse(TrimSpace(uri));
    if parsed.Some? { BaseOfJoinPath(parsed.value.path, e); }
  }

  lemma ExtractedEnds(route: RouteValue, request: Request, e: string, urls: Urls)
    requires Plain(e)
    ensures EndsIn(Extracted(route, request, e, urls), e)
  {
    var text := request.extracted(route.jsonPath);
    if text.Some? {
      var u := urls.resolve(request.url, text.value);
      if u.Some? { BaseOfJoinPath(u.value.path, e); }
    }
  }

  lemma BuiltRouteEnds(rule: Rule, e: string, parse: Parser, route: RouteValue)
    requires Plain(e) && BuildRoute(rule, e, parse) == Ok(Some(route))
    ensures route.targetType == rule.targetType && route.actAsProxy == Proxies(rule)
    ensures rule.targetType == URL && rule.target.excludeAction ==>
      route.url == parse(rule.target.url) && route.url.Some?
    ensures !(rule.targetType == URL && rule.target.excludeAction) ==> EndsIn(Ok(route), e)
  {
    var parsed := parse(rule.target.url);
    if parsed.Some? { BaseOfJoinPath(parsed.value.path, e); }
  }

  lemma FoundIsBuilt(rules: seq<Rule>, parse: Parser, d: string, v: string, e: string)
    requires Built(rules, parse).Ok? && Find(Built(rules, parse).value, d, v, e).Ok?
    ensures Scan(rules, d, v, e).Some?
    ensures BuildRoute(Scan(rules, d, v, e).value, e, parse) == Ok(Some(Find(Built(rules, parse).value, d, v, e).value))
  {
    BuiltAgreesAt(rules, parse, d, v, e);
    assert Lookup(Built(rules, parse).value, d, v, e).Some?;
  }

  lemma AnswerEnds(rule: Rule, overrides: Overrides, request: Request, body: Body, urls: Urls, e: string,
                   route: RouteValue)
    requires Plain(e) && BuildRoute(rule, e, urls.parse) == Ok(Some(route))
    requires rule.targetType == URL && rule.target.excludeAction ==> Proxies(rule) && SessionOverrides(request, e)
    ensures var o := Overridden(overrides, request, route, e);
      EndsIn(if o.Some? then o.value else Destination(route, request, body, e, urls), e)
  {
    BuiltRouteEnds(rule, e, urls.parse, route);
    OverriddenExactly(overrides, request, route, e);
    OverrideEnds(overrides, request, route, e);
    if !(rule.targetType == URL && rule.target.excludeAction) {
      MappedEnds(route, body.bppUri, e, urls);
      MappedEnds(route, body.bapUri, e, urls);
      ExtractedEnds(route, request, e, urls);
    }
  }

  lemma KeptAnswer(rule: Rule, overrides: Overrides, request: Request, body: Body, urls: Urls, e: string,
                   route: RouteValue)
    requires Plain(e) && BuildRoute(rule, e, urls.parse) == Ok(Some(route))
    requires rule.targetType == URL && rule.target.excludeAction && !(Proxies(rule) && SessionOverrides(request, e))
    ensures Overridden(overrides, request, route, e).None?
    ensures urls.parse(rule.target.url).Some?
    ensures EndsIn(Destination(route, request, body, e, urls), e) <==> Base(urls.parse(rule.target.url).value.path) == e
  {
    BuiltRouteEnds(rule, e, urls.parse, route);
    OverriddenExactly(overrides, request, route, e);
  }

  /** Resolved URLs keep the endpoint: whatever the target type, override or request, the last path
      element of the destination is the endpoint asked for, except that a rule which excludes the
      action, and is not overridden, sends on a URL that ends as it was configured. */
  lemma DestinationKeepsEndpoint(rules: seq<Rule>, overrides: Overrides, request: Request, urls: Urls)
    requires Built(rules, urls.parse).Ok? && request.body.Some?
    requires Plain(Base(request.url.path))
    ensures var body, e := request.body.value, Base(request.url.path);
      EndsIn(Routed(Built(rules, urls.parse).value, overrides, request, urls), e) <==>
        (KeepsUrl(rules, body.domain, Version(body), e, request) ==>
           UrlEndsIn(rules, body.domain, Version(body), e, urls.parse))
  {
    var index, body, e := Built(rules, urls.parse).value, request.body.value, Base(request.url.path);
    var rule, found := Scan(rules, body.domain, Version(body), e), Find(index, body.domain, Version(body), e);
    if found.Ok? {
      FoundIsBuilt(rules, urls.parse, body.domain, Version(body), e);
      if KeepsUrl(rules, body.domain, Version(body), e, request) {
        KeptAnswer(rule.value, overrides, request, body, urls, e, found.value);
      } else {
        AnswerEnds(rule.value, overrides, request, body, urls, e, found.value);
      }
    } else {
      NotFoundUnparsed(rules, urls.parse, body.domain, Version(body), e);
    }
  }

  lemma NotFoundUnparsed(rules: seq<Rule>, parse: Parser, d: string, v: string, e: string)
    requires Built(rules, parse).Ok? && Find(Built(rules, parse).value, d, v, e).Err?
    ensures var rule := Scan(rules, d, v, e);
      rule.Some? && rule.value.targetType == URL ==> parse(rule.value.target.url).None?
  {
    BuiltAgreesAt(rules, parse, d, v, e);
    var index := Built(rules, parse).value;
    assert Lookup(index, d, v, e) in {None, Some(None)};
  }

  /** Lookup fails at a level exactly when no rule matches that far. */
  lemma LookupLevels(rules: seq<Rule>, parse: Parser, d: string, v: string, e: string)
    requires AllAccepted(rules, parse)
    ensures Built(rules, parse).Ok?
    ensures var found := Find(Built(rules, parse).value, d, v, e);
      && (found == Err(NoDomain) <==> !exists r :: r in rules && r.domain == d)
      && (found == Err(NoVersion) <==> (exists r :: r in rules && r.domain == d)
                                       && !exists r :: r in rules && r.domain == d && r.version == v)
      && (found == Err(NoEndpoint) <==> (exists r :: r in rules && r.domain == d && r.version == v)
                                        && !exists r :: r in rules && r.domain == d && r.version == v
                                                        && e in r.endpoints)
      && (found.Ok? <==> exists r :: r in rules && r.domain == d && r.version == v && e in r.endpoints)
      && (found.Ok? ==> Scan(rules, d, v, e).Some?
                        && BuildRoute(Scan(rules, d, v, e).value, e, parse) == Ok(Some(found.value)))
  {
    ValidatedHasNoNil(rules, parse);
    BuiltAgreesAt(rules, parse, d, v, e);
    ScanFinds(rules, d, v, e);
    var index := Built(rules, parse).value;
    assert Lookup(index, d, v, e) != Some(None);
    assert forall r: Rule :: Matches(r, d, v) <==> r.domain == d && r.version == v;
  }

  /** Care on its endpoints and the gateway on search come before the tunnel: with their cookie set,
      neither the tunnel's cookie nor its URL changes any answer. */
  lemma OverridePriority(index: Index<Option<RouteValue>>, overrides: Overrides, tunnel: Option<UrlValue>,
                         request: Request, cookies: map<string, string>, urls: Urls)
    requires forall name :: name != "use_tunnel_for_fis" ==>
      (CookieSet(request, name) <==> CookieSet(request.(cookies := cookies), name))
    requires var e := Base(request.url.path);
      (e in CARE_ENDPOINTS && CookieSet(request, "use_care")) || (e == "search" && CookieSet(request, "use_gateway"))
    ensures Routed(index, overrides.(tunnel := tunnel), request.(cookies := cookies), urls)
         == Routed(index, overrides, request, urls)
  {
    var e, changed := Base(request.url.path), request.(cookies := cookies);
    assert CookieSet(request, "use_care") <==> CookieSet(changed, "use_care");
    assert CookieSet(request, "use_gateway") <==> CookieSet(changed, "use_gateway");
  }

  lemma SessionIgnored(index: Index<Option<RouteValue>>, overrides: Overrides, overrides': Overrides,
                       request: Request, cookies: map<string, string>, urls: Urls)
    requires request.body.Some?
    requires var found := Find(index, request.body.value.domain, Version(request.body.value), Base(request.url.path));
      found.Ok? ==> !found.value.actAsProxy
    ensures Routed(index, overrides, request, urls) == Routed(index, overrides', request.(cookies := cookies), urls)
  {
  }

  lemma FoundProxy(rules: seq<Rule>, parse: Parser, d: string, v: string, e: string)
    requires Built(rules, parse).Ok? && Find(Built(rules, parse).value, d, v, e).Ok?
    ensures Scan(rules, d, v, e).Some?
    ensures Find(Built(rules, parse).value, d, v, e).value.actAsProxy == Proxies(Scan(rules, d, v, e).value)
  {
    FoundIsBuilt(rules, parse, d, v, e);
  }

  /** When the rule that decides is not a proxy, cookies and override URLs change no answer. */
  lemma NonProxyIgnoresSession(rules: seq<Rule>, overrides: Overrides, overrides': Overrides,
                               request: Request, cookies: map<string, string>, urls: Urls)
    requires Built(rules, urls.parse).Ok? && request.body.Some?
    requires var rule := Scan(rules, request.body.value.domain, Version(request.body.value), Base(request.url.path));
      rule.Some? ==> !Proxies(rule.value)
    ensures var index := Built(rules, urls.parse).value;
      Routed(index, overrides, request, urls) == Routed(index, overrides', request.(cookies := cookies), urls)
  {
    var index, body, e := Built(rules, urls.parse).value, request.body.value, Base(request.url.path);
    if Find(index, body.domain, Version(body), e).Ok? {
      FoundProxy(rules, urls.parse, body.domain, Version(body), e);
    }
    SessionIgnored(index, overrides, overrides', request, cookies, urls);
  }

  lemma OnlyRule(rule: Rule, e: string, parse: Parser, route: RouteValue)
    requires Accepted(rule, parse) && e in rule.endpoints && BuildRoute(rule, e, parse) == Ok(Some(route))
    ensures Built([rule], parse).Ok?
    ensures Find(Built([rule], parse).value, rule.domain, rule.version, e) == Ok(route)
  {
    assert rule in [rule];
    LookupLevels([rule], parse, rule.domain, rule.version, e);
    assert Matches(rule, rule.domain, rule.version);
  }

  lemma KeptRoute(index: Index<Option<RouteValue>>, overrides: Overrides, request: Request, urls: Urls,
                  route: RouteValue)
    requires request.body.Some? && !request.attached && route.targetType == URL
    requires Find(index, request.body.value.domain, Version(request.body.value), Base(request.url.path)) == Ok(route)
    ensures Routed(index, overrides, request, urls) == Ok(route)
  {
  }

  /** A rule that excludes the action, and the answer it gives endpoint x: its URL as configured, which
      ends in y. */
  lemma KeptUrlEndsOtherwise(rule: Rule, overrides: Overrides, request: Request, urls: Urls, rest: string)
    requires rule == Rule("d", "1", URL, Target("u", "", "", true), ["x"], None)
    requires urls.parse("u") == Some(UrlValue("/y", rest))
    requires request.url.path == "/x" && request.body == Some(Body("d", "1", "", "", "")) && !request.attached
    ensures Base(request.url.path) == "x" && Built([rule], urls.parse).Ok?
    ensures var answer := Routed(Built([rule], urls.parse).value, overrides, request, urls);
      answer == Ok(RouteValue(URL, Some(UrlValue("/y", rest)), "", "", true)) && !EndsIn(answer, "x")
  {
    LetterBase('x');
    LetterBase('y');
    assert "/x" == ['/', 'x'] && "/y" == ['/', 'y'];
    var route := RouteValue(URL, Some(UrlValue("/y", rest)), "", "", true);
    OnlyRule(rule, "x", urls.parse, route);
    KeptRoute(Built([rule], urls.parse).value, overrides, request, urls, route);
  }

  // ---- Every answer, from the rule list and the request ----

  /** Rule k decides a request for endpoint e: the version is the body's, or its core version. */
  predicate Asks(rules: seq<Rule>, k: nat, request: Request, urls: Urls, e: string) {
    Built(rules, urls.parse).Ok? && request.body.Some? && e == Base(request.url.path) &&
    var body := request.body.value;
    Decides(rules, k, body.domain, if body.version != "" then body.version else body.coreVersion, e)
  }

  predicate Cookie(request: Request, name: string) {
    name in request.cookies && request.cookies[name] == "true"
  }

  predicate CareApplies(request: Request, e: string) {
    e in {"issue", "on_issue", "issue_status", "on_issue_status"} && Cookie(request, "use_care")
  }

  predicate GatewayApplies(request: Request, e: string) {
    e == "search" && Cookie(request, "use_gateway")
  }

  /** Overrides are looked at only for an HTTP request on a rule that acts as a proxy, as rules do
      unless they say otherwise. */
  predicate Overridable(rule: Rule, request: Request) {
    rule.actAsProxy != Some(false) && request.attached
  }

  predicate NotOverridden(rule: Rule, request: Request, e: string) {
    !Overridable(rule, request)
    || (!CareApplies(request, e) && !GatewayApplies(request, e) && !Cookie(request, "use_tunnel_for_fis"))
  }

  /** Sent on to a URL with the endpoint joined on, everything else of the URL kept. */
  function To(u: UrlValue, e: string, proxy: bool): Answer {
    Ok(RouteValue("url", Some(UrlValue(JoinPath(u.path, e), u.rest)), "", "", proxy))
  }

  /** What a rule's route leads to. */
  function Decision(rule: Rule, overrides: Overrides, request: Request, body: Body, urls: Urls, e: string): Answer
    requires BuildRoute(rule, e, urls.parse).Ok? && BuildRoute(rule, e, urls.parse).value.Some?
  {
    var route := BuildRoute(rule, e, urls.parse).value.value;
    var overridden := Overridden(overrides, request, route, e);
    if overridden.Some? then overridden.value else Destination(route, request, body, e, urls)
  }

  lemma DecidedRoute(rules: seq<Rule>, k: nat, overrides: Overrides, request: Request, urls: Urls, e: string)
    requires Asks(rules, k, request, urls, e) && Accepted(rules[k], urls.parse)
    ensures BuildRoute(rules[k], e, urls.parse).Ok? && BuildRoute(rules[k], e, urls.parse).value.Some?
    ensures Routed(Built(rules, urls.parse).value, overrides, request, urls)
         == Decision(rules[k], overrides, request, request.body.value, urls, e)
  {
    var body := request.body.value;
    AcceptedBuilds(rules[k], e, urls.parse);
    ScanIsLast(rules, k, body.domain, Version(body), e);
    BuiltAgreesAt(rules, urls.parse, body.domain, Version(body), e);
    assert Lookup(Built(rules, urls.parse).value, body.domain, Version(body), e)
        == Some(BuildRoute(rules[k], e, urls.parse).value);
  }

  lemma NoOverride(rule: Rule, overrides: Overrides, request: Request, route: RouteValue, e: string)
    requires NotOverridden(rule, request, e) && route.actAsProxy == (rule.actAsProxy != Some(false))
    ensures Overridden(overrides, request, route, e).None?
  {
  }

  /** A url rule's own URL, the endpoint joined on unless the rule excludes the action. */
  function UrlOf(rule: Rule, urls: Urls, e: string): Answer {
    match urls.parse(rule.target.url)
    case None => Err(BadUri)
    case Some(u) =>
      if rule.target.excludeAction then Ok(RouteValue("url", Some(u), "", "", rule.actAsProxy != Some(false)))
      else To(u, e, rule.actAsProxy != Some(false))
  }

  lemma UrlDecision(rule: Rule, overrides: Overrides, request: Request, body: Body, urls: Urls, e: string)
    requires Accepted(rule, urls.parse) && NotOverridden(rule, request, e) && rule.targetType == "url"
    ensures BuildRoute(rule, e, urls.parse).Ok? && BuildRoute(rule, e, urls.parse).value.Some?
    ensures Decision(rule, overrides, request, body, urls, e) == UrlOf(rule, urls, e)
  {
    NoOverride(rule, overrides, request, BuildRoute(rule, e, urls.parse).value.value, e);
  }

  lemma PublisherDecision(rule: Rule, overrides: Overrides, request: Request, body: Body, urls: Urls, e: string)
    requires NotOverridden(rule, request, e) && rule.targetType == "publisher"
    ensures BuildRoute(rule, e, urls.parse).Ok? && BuildRoute(rule, e, urls.parse).value.Some?
    ensures Decision(rule, overrides, request, body, urls, e) ==
      Ok(RouteValue("publisher", None, rule.target.publisherId, "", rule.actAsProxy != Some(false)))
  {
    NoOverride(rule, overrides, request, BuildRoute(rule, e, urls.parse).value.value, e);
  }

  /** What a bpp or bap rule answers, given the URI of that party in the body. */
  function PartyAnswer(rule: Rule, uri: string, urls: Urls, e: string): Answer {
    var text, proxy := TrimSpace(uri), rule.actAsProxy != Some(false);
    if text != "" then if urls.parse(text).Some? then To(urls.parse(text).value, e, proxy) else Err(BadUri)
    else if rule.target.url != "" && urls.parse(rule.target.url).Some? then
      To(urls.parse(rule.target.url).value, e, proxy)
    else Err(NoDestination)
  }

  lemma PartyDecision(rule: Rule, uri: string, urls: Urls, e: string)
    requires Accepted(rule, urls.parse) && rule.targetType in {"bpp", "bap"}
    ensures BuildRoute(rule, e, urls.parse).Ok? && BuildRoute(rule, e, urls.parse).value.Some?
    ensures Mapped(BuildRoute(rule, e, urls.parse).value.value, uri, e, urls) == PartyAnswer(rule, uri, urls, e)
  {
  }

  lemma SellerDecision(rule: Rule, overrides: Overrides, request: Request, body: Body, urls: Urls, e: string)
    requires Accepted(rule, urls.parse) && NotOverridden(rule, request, e) && rule.targetType == "bpp"
    ensures BuildRoute(rule, e, urls.parse).Ok? && BuildRoute(rule, e, urls.parse).value.Some?
    ensures Decision(rule, overrides, request, body, urls, e) == PartyAnswer(rule, body.bppUri, urls, e)
  {
    PartyDecision(rule, body.bppUri, urls, e);
    NoOverride(rule, overrides, request, BuildRoute(rule, e, urls.parse).value.value, e);
  }

  lemma BuyerDecision(rule: Rule, overrides: Overrides, request: Request, body: Body, urls: Urls, e: string)
    requires Accepted(rule, urls.parse) && NotOverridden(rule, request, e) && rule.targetType == "bap"
    ensures BuildRoute(rule, e, urls.parse).Ok? && BuildRoute(rule, e, urls.parse).value.Some?
    ensures Decision(rule, overrides, request, body, urls, e) == PartyAnswer(rule, body.bapUri, urls, e)
  {
    PartyDecision(rule, body.bapUri, urls, e);
    NoOverride(rule, overrides, request, BuildRoute(rule, e, urls.parse).value.value, e);
  }

  /** What a jsonPath rule answers: the URL found under its path, resolved against the request's own. */
  function ExtractAnswer(rule: Rule, request: Request, urls: Urls, e: string): Answer {
    var text := request.extracted(rule.target.jsonPath);
    if text.None? || TrimSpace(text.value) == "" then Err(BadExtract)
    else if urls.resolve(request.url, text.value).None? then Err(BadUri)
    else To(urls.resolve(request.url, text.value).value, e, rule.actAsProxy != Some(false))
  }

  lemma ExtractedDecision(rule: Rule, overrides: Overrides, request: Request, body: Body, urls: Urls, e: string)
    requires NotOverridden(rule, request, e) && rule.targetType == "jsonPath"
    ensures BuildRoute(rule, e, urls.parse).Ok? && BuildRoute(rule, e, urls.parse).value.Some?
    ensures Decision(rule, overrides, request, body, urls, e) == ExtractAnswer(rule, request, urls, e)
  {
    NoOverride(rule, overrides, request, BuildRoute(rule, e, urls.parse).value.value, e);
  }

  /** What an override answers: its own URL with the endpoint joined on, or that it is not configured. */
  function OverrideAnswer(u: Option<UrlValue>, e: string, name: string): Answer {
    if u.Some? then To(u.value, e, true) else Err(NotConfigured(name))
  }

  lemma OverrideDecision(rule: Rule, overrides: Overrides, request: Request, body: Body, urls: Urls, e: string)
    requires Accepted(rule, urls.parse) && Overridable(rule, request)
    ensures BuildRoute(rule, e, urls.parse).Ok? && BuildRoute(rule, e, urls.parse).value.Some?
    ensures var answer := Decision(rule, overrides, request, body, urls, e);
      && (CareApplies(request, e) ==> answer == OverrideAnswer(overrides.care, e, "CARE_URL"))
      && (GatewayApplies(request, e) ==> answer == OverrideAnswer(overrides.gateway, e, "GATEWAY_URL"))
      && (Cookie(request, "use_tunnel_for_fis") && !CareApplies(request, e) && !GatewayApplies(request, e) ==>
            answer == OverrideAnswer(overrides.tunnel, e, "FIS_TUNNEL_URL"))
  {
    AcceptedBuilds(rule, e, urls.parse);
    assert BuildRoute(rule, e, urls.parse).value.value.actAsProxy;
  }

  /** A url rule answers with its own URL, the endpoint joined on unless it excludes the action. */
  lemma UrlAnswer(rules: seq<Rule>, k: nat, overrides: Overrides, request: Request, urls: Urls, e: string)
    requires Asks(rules, k, request, urls, e) && Accepted(rules[k], urls.parse)
    requires rules[k].targetType == "url" && NotOverridden(rules[k], request, e)
    ensures Routed(Built(rules, urls.parse).value, overrides, request, urls) == UrlOf(rules[k], urls, e)
  {
    DecidedRoute(rules, k, overrides, request, urls, e);
    UrlDecision(rules[k], overrides, request, request.body.value, urls, e);
  }

  /** A publisher rule answers with its publisher. */
  lemma PublisherAnswer(rules: seq<Rule>, k: nat, overrides: Overrides, request: Request, urls: Urls, e: string)
    requires Asks(rules, k, request, urls, e) && Accepted(rules[k], urls.parse)
    requires rules[k].targetType == "publisher" && NotOverridden(rules[k], request, e)
    ensures Routed(Built(rules, urls.parse).value, overrides, request, urls) ==
      Ok(RouteValue("publisher", None, rules[k].target.publisherId, "", rules[k].actAsProxy != Some(false)))
  {
    DecidedRoute(rules, k, overrides, request, urls, e);
    PublisherDecision(rules[k], overrides, request, request.body.value, urls, e);
  }

  /** A bpp rule sends to the seller's URI in the body, or to its own URL when that is blank. */
  lemma SellerAnswer(rules: seq<Rule>, k: nat, overrides: Overrides, request: Request, urls: Urls, e: string)
    requires Asks(rules, k, request, urls, e) && Accepted(rules[k], urls.parse)
    requires rules[k].targetType == "bpp" && NotOverridden(rules[k], request, e)
    ensures Routed(Built(rules, urls.parse).value, overrides, request, urls)
         == PartyAnswer(rules[k], request.body.value.bppUri, urls, e)
  {
    DecidedRoute(rules, k, overrides, request, urls, e);
    SellerDecision(rules[k], overrides, request, request.body.value, urls, e);
  }

  /** A bap rule sends to the buyer's URI in the body, or to its own URL when that is blank. */
  lemma BuyerAnswer(rules: seq<Rule>, k: nat, overrides: Overrides, request: Request, urls: Urls, e: string)
    requires Asks(rules, k, request, urls, e) && Accepted(rules[k], urls.parse)
    requires rules[k].targetType == "bap" && NotOverridden(rules[k], request, e)
    ensures Routed(Built(rules, urls.parse).value, overrides, request, urls)
         == PartyAnswer(rules[k], request.body.value.bapUri, urls, e)
  {
    DecidedRoute(rules, k, overrides, request, urls, e);
    BuyerDecision(rules[k], overrides, request, request.body.value, urls, e);
  }

  /** A jsonPath rule sends to the URL found in the request under its path. */
  lemma ExtractedAnswer(rules: seq<Rule>, k: nat, overrides: Overrides, request: Request, urls: Urls, e: string)
    requires Asks(rules, k, request, urls, e) && Accepted(rules[k], urls.parse)
    requires rules[k].targetType == "jsonPath" && NotOverridden(rules[k], request, e)
    ensures Routed(Built(rules, urls.parse).value, overrides, request, urls)
         == ExtractAnswer(rules[k], request, urls, e)
  {
    DecidedRoute(rules, k, overrides, request, urls, e);
    ExtractedDecision(rules[k], overrides, request, request.body.value, urls, e);
  }

  /** Each override answers with its own URL: care on its endpoints, gateway on search, and the tunnel
      when neither of these applies. */
  lemma OverrideAnswers(rules: seq<Rule>, k: nat, overrides: Overrides, request: Request, urls: Urls, e: string)
    requires Asks(rules, k, request, urls, e) && Accepted(rules[k], urls.parse)
    requires Overridable(rules[k], request)
    ensures var answer := Routed(Built(rules, urls.parse).value, overrides, request, urls);
      && (CareApplies(request, e) ==> answer == OverrideAnswer(overrides.care, e, "CARE_URL"))
      && (GatewayApplies(request, e) ==> answer == OverrideAnswer(overrides.gateway, e, "GATEWAY_URL"))
      && (Cookie(request, "use_tunnel_for_fis") && !CareApplies(request, e) && !GatewayApplies(request, e) ==>
            answer == OverrideAnswer(overrides.tunnel, e, "FIS_TUNNEL_URL"))
  {
    DecidedRoute(rules, k, overrides, request, urls, e);
    OverrideDecision(rules[k], overrides, request, request.body.value, urls, e);
  }

  lemma NeverRefuses(overrides: Overrides, request: Request, route: RouteValue, body: Body, urls: Urls, e: string)
    ensures var o, d := Overridden(overrides, request, route, e), Destination(route, request, body, e, urls);
      && (o.Some? ==> o.value !in {Err(BadBody), Err(NoDomain), Err(NoVersion), Err(NoEndpoint)})
      && d !in {Err(BadBody), Err(NoDomain), Err(NoVersion), Err(NoEndpoint)}
  {
  }

  lemma RoutedRefusals(index: Index<Option<RouteValue>>, overrides: Overrides, request: Request, urls: Urls)
    requires request.body.Some?
    ensures var found := Find(index, request.body.value.domain, Version(request.body.value), Base(request.url.path));
      var answer := Routed(index, overrides, request, urls);
      && answer != Err(BadBody)
      && (answer == Err(NoDomain) <==> found == Err(NoDomain))
      && (answer == Err(NoVersion) <==> found == Err(NoVersion))
      && (answer == Err(NoEndpoint) <==> found == Err(NoEndpoint))
  {
    var body, e := request.body.value, Base(request.url.path);
    var found := Find(index, body.domain, Version(body), e);
    if found.Ok? { NeverRefuses(overrides, request, found.value, body, urls, e); }
  }

  /** Without a deciding rule the answer says how far some rule matches. */
  lemma RefusedAnswer(rules: seq<Rule>, overrides: Overrides, request: Request, urls: Urls, v: string)
    requires AllAccepted(rules, urls.parse) && request.body.Some?
    requires v == if request.body.value.version != "" then request.body.value.version
                  else request.body.value.coreVersion
    ensures Built(rules, urls.parse).Ok?
    ensures var answer := Routed(Built(rules, urls.parse).value, overrides, request, urls);
      var d, e := request.body.value.domain, Base(request.url.path);
      && answer != Err(BadBody)
      && (answer == Err(NoDomain) <==> !exists r :: r in rules && r.domain == d)
      && (answer == Err(NoVersion) <==>
            (exists r :: r in rules && r.domain == d) && !exists r :: r in rules && r.domain == d && r.version == v)
      && (answer == Err(NoEndpoint) <==>
            (exists r :: r in rules && r.domain == d && r.version == v)
            && !exists r :: r in rules && r.domain == d && r.version == v && e in r.endpoints)
  {
    LookupLevels(rules, urls.parse, request.body.value.domain, v, Base(request.url.path));
    RoutedRefusals(Built(rules, urls.parse).value, overrides, request, urls);
  }

  // ---- Starting up ----

  /** Each override URL comes from its own variable; the first that does not parse stops the start. */
  lemma ConfiguredExactly(env: string -> string, parse: Parser)
    ensures var care, tunnel, gateway :=
      TrimSpace(env("CARE_URL")), TrimSpace(env("FIS_TUNNEL_URL")), TrimSpace(env("GATEWAY_URL"));
      Configured(env, parse) ==
        if care != "" && parse(care).None? then Err("CARE_URL")
        else if tunnel != "" && parse(tunnel).None? then Err("FIS_TUNNEL_URL")
        else if gateway != "" && parse(gateway).None? then Err("GATEWAY_URL")
        else Ok(Overrides(if care == "" then None else parse(care), if tunnel == "" then None else parse(tunnel),
                          if gateway == "" then None else parse(gateway)))
  {
  }

  /** Rules load exactly when the path is given and its file reads, parses and holds accepted rules. */
  lemma RulesLoadExactly(path: string, loader: Loader, parse: Parser, rules: seq<Rule>)
    ensures RulesAt(path, loader, parse) == Ok(rules) <==>
      path != "" && loader.read(path).Some? && loader.unmarshal(loader.read(path).value) == Some(rules)
      && forall r :: r in rules ==> Accepted(r, parse)
    ensures RulesAt(path, loader, parse) == Err(EmptyPath) <==> path == ""
    ensures RulesAt(path, loader, parse) == Err(Unreadable) <==> path != "" && loader.read(path).None?
    ensures RulesAt(path, loader, parse) == Err(BadYaml) <==>
      path != "" && loader.read(path).Some? && loader.unmarshal(loader.read(path).value).None?
  {
  }
}
