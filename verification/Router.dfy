/** The router object: an index of routes with shared URL objects, and three override URLs. */
module Router {
  import opened GoPath
  import opened RouteSpec
  import opened RoutingRules
  import opened Text
  import opened Wrappers

  class Url {
    var path: string
    const rest: string

    constructor (value: UrlValue)
      ensures Value() == value
    {
      path, rest := value.path, value.rest;
    }

    function Value(): UrlValue
      reads this
    {
      UrlValue(path, rest)
    }
  }

  /** A route with its URL by reference, as callers share it with the index. */
  datatype Route = Route(targetType: string, url: Url?, publisherId: string, jsonPath: string, actAsProxy: bool)

  ghost predicate Shows(route: Route, value: RouteValue)
    reads route.url
  {
    && route.targetType == value.targetType && route.publisherId == value.publisherId
    && route.jsonPath == value.jsonPath && route.actAsProxy == value.actAsProxy
    && (route.url == null <==> value.url == None)
    && (route.url != null ==> value.url == Some(route.url.Value()))
  }

  /** joinPath: it may write "/" into the URL it is given before joining. */
  method JoinInto(u: Url, endpoint: string) returns (joined: string)
    modifies u
    ensures joined == JoinPath(old(u.path), endpoint)
    ensures u.path == if old(u.path) == "" then "/" else old(u.path)
  {
    if u.path == "" {
      u.path := "/";
    }
    joined := JoinTwo(u.path, endpoint);
  }

  /** A fresh URL with the endpoint joined on. */
  method Resolved(value: UrlValue, endpoint: string) returns (u: Url)
    ensures fresh(u) && u.Value() == WithEndpoint(value, endpoint)
  {
    u := new Url(value);
    var joined := JoinInto(u, endpoint);
    u.path := joined;
  }

  ghost predicate ShowsBuilt(built: Result<Option<Route>, string>, value: Result<Option<RouteValue>, string>)
    reads if built.Ok? && built.value.Some? && built.value.value.url != null then {built.value.value.url} else {}
  {
    if built.Err? then value.Err? && built.error == value.error
    else value.Ok? && built.value.Some? == value.value.Some?
         && (built.value.Some? ==> Shows(built.value.value, value.value.value))
  }

  method BuildEntry(rule: Rule, endpoint: string, parse: Parser) returns (built: Result<Option<Route>, string>)
    ensures ShowsBuilt(built, BuildRoute(rule, endpoint, parse))
    ensures built.Ok? && built.value.Some? && built.value.value.url != null ==> fresh(built.value.value.url)
  {
    var proxy := if rule.actAsProxy.None? then true else rule.actAsProxy.value;
    if rule.targetType == PUBLISHER {
      return Ok(Some(Route(PUBLISHER, null, rule.target.publisherId, "", proxy)));
    } else if rule.targetType == URL {
      var parsed := parse(rule.target.url);
      if parsed.None? {
        return Err(rule.target.url);
      }
      var u := new Url(parsed.value);
      if !rule.target.excludeAction {
        var joined := JoinInto(u, endpoint);
        u.path := joined;
      }
      return Ok(Some(Route(URL, u, "", "", proxy)));
    } else if rule.targetType == BPP || rule.targetType == BAP {
      var u: Url? := null;
      if rule.target.url != "" {
        var parsed := parse(rule.target.url);
        if parsed.None? {
          return Err(rule.target.url);
        }
        u := Resolved(parsed.value, endpoint);
      }
      return Ok(Some(Route(rule.targetType, u, "", "", proxy)));
    } else if rule.targetType == JSON_PATH {
      return Ok(Some(Route(JSON_PATH, null, "", rule.target.jsonPath, proxy)));
    }
    return Ok(None);
  }

  method ValidateRules(rules: seq<Rule>, parse: Parser) returns (ok: bool)
    ensures ok <==> AllAccepted(rules, parse)
  {
    for i := 0 to |rules|
      invariant forall j :: 0 <= j < i ==> Accepted(rules[j], parse)
    {
      if !Accepted(rules[i], parse) {
        assert rules[i] in rules;
        return false;
      }
    }
    return true;
  }

  class Router {
    var rules: Index<Option<Route>>
    var careUrl: Url?
    var fisTunnelUrl: Url?
    var gatewayUrl: Url?
    /** The URL objects the index refers to. */
    ghost var urls: set<Url>

    ghost predicate EntryShows(d: string, v: string, e: string, index: Index<Option<RouteValue>>)
      reads this, urls
    {
      && (d in rules <==> d in index)
      && (d in rules && v in rules[d] <==> d in index && v in index[d])
      && var here, there := Lookup(rules, d, v, e), Lookup(index, d, v, e);
         && here.Some? == there.Some?
         && (here.Some? ==> SharedShows(here.value, there.value))
    }

    ghost predicate SharedShows(entry: Option<Route>, value: Option<RouteValue>)
      reads this, urls
    {
      && entry.Some? == value.Some?
      && (entry.Some? ==> (entry.value.url != null ==> entry.value.url in urls) && Shows(entry.value, value.value))
    }

    ghost predicate ShowsIndex(index: Index<Option<RouteValue>>)
      reads this, urls
    {
      forall d, v, e :: EntryShows(d, v, e, index)
    }

    ghost function OverrideValues(): Overrides
      reads this, careUrl, fisTunnelUrl, gatewayUrl
    {
      Overrides(if careUrl == null then None else Some(careUrl.Value()),
                if fisTunnelUrl == null then None else Some(fisTunnelUrl.Value()),
                if gatewayUrl == null then None else Some(gatewayUrl.Value()))
    }

    constructor (careUrl: Url?, fisTunnelUrl: Url?, gatewayUrl: Url?)
      ensures rules == map[] && ShowsIndex(map[])
      ensures this.careUrl == careUrl && this.fisTunnelUrl == fisTunnelUrl && this.gatewayUrl == gatewayUrl
    {
      this.careUrl, this.fisTunnelUrl, this.gatewayUrl := careUrl, fisTunnelUrl, gatewayUrl;
      rules, urls := map[], {};
    }

    /** Reads and validates the rules, then builds the index in their order; after that nothing can fail. */
    method LoadRules(path: string, loader: Loader, parse: Parser) returns (loaded: Result<seq<Rule>, StartError>)
      requires rules == map[]
      modifies this`rules, this`urls
      ensures loaded == RulesAt(path, loader, parse)
      ensures loaded.Ok? ==> Built(loaded.value, parse).Ok? && ShowsIndex(Built(loaded.value, parse).value)
      ensures loaded.Err? ==> rules == map[]
      ensures loaded.Ok? ==> fresh(urls)
    {
      if path == "" {
        return Err(EmptyPath);
      }
      var data := loader.read(path);
      if data.None? {
        return Err(Unreadable);
      }
      var config := loader.unmarshal(data.value);
      if config.None? {
        return Err(BadYaml);
      }
      var valid := ValidateRules(config.value, parse);
      if !valid {
        return Err(InvalidRules);
      }
      BuildIndex(config.value, parse);
      return Ok(config.value);
    }

    method BuildIndex(config: seq<Rule>, parse: Parser)
      requires rules == map[] && AllAccepted(config, parse)
      modifies this`rules, this`urls
      ensures Built(config, parse).Ok? && ShowsIndex(Built(config, parse).value)
      ensures fresh(urls)
    {
      urls := {};
      for n := 0 to |config|
        invariant Built(config[..n], parse).Ok? && ShowsIndex(Built(config[..n], parse).value)
        invariant fresh(urls)
      {
        ValidatedBuilds(config[..n + 1], parse);
        assert config[..n + 1][..n] == config[..n];
        LoadRule(config[n], parse, Built(config[..n], parse).value);
      }
      assert config[..|config|] == config;
    }

    static method OverrideFrom(env: string -> string, name: string, parse: Parser)
      returns (result: Result<Url?, StartError>)
      ensures match FromEnvironment(env, name, parse)
        case Err(bad) => result == Err(BadOverride(bad))
        case Ok(None) => result == Ok(null)
        case Ok(Some(u)) => result.Ok? && result.value != null && fresh(result.value) && result.value.Value() == u
    {
      var text := TrimSpace(env(name));
      if text == "" {
        return Ok(null);
      }
      var parsed := parse(text);
      if parsed.None? {
        return Err(BadOverride(name));
      }
      var u := new Url(parsed.value);
      return Ok(u);
    }

    /** Starting up: the override URLs first, in order, then the rules. The router is ready to answer
        by the index of its rules, which holds no nil route. */
    static method New(config: Option<string>, env: string -> string, loader: Loader, parse: Parser)
      returns (result: Result<Router, StartError>)
      ensures config.None? ==> result == Err(NoConfig)
      ensures config.Some? && Configured(env, parse).Err? ==> result == Err(BadOverride(Configured(env, parse).error))
      ensures config.Some? && Configured(env, parse).Ok? ==>
        match RulesAt(config.value, loader, parse)
        case Err(error) => result == Err(error)
        case Ok(rules) => result.Ok? && fresh(result.value)
                          && result.value.OverrideValues() == Configured(env, parse).value
                          && Built(rules, parse).Ok? && NoNil(Built(rules, parse).value)
                          && result.value.ShowsIndex(Built(rules, parse).value)
    {
      if config.None? {
        return Err(NoConfig);
      }
      var care := OverrideFrom(env, "CARE_URL", parse);
      if care.Err? {
        return Err(care.error);
      }
      var tunnel := OverrideFrom(env, "FIS_TUNNEL_URL", parse);
      if tunnel.Err? {
        return Err(tunnel.error);
      }
      var gateway := OverrideFrom(env, "GATEWAY_URL", parse);
      if gateway.Err? {
        return Err(gateway.error);
      }
      var router := new Router(care.value, tunnel.value, gateway.value);
      var loaded := router.LoadRules(config.value, loader, parse);
      if loaded.Err? {
        return Err(loaded.error);
      }
      ValidatedHasNoNil(loaded.value, parse);
      return Ok(router);
    }

    method OpenRule(rule: Rule, ghost before: Index<Option<RouteValue>>)
      requires ShowsIndex(before)
      modifies this`rules
      ensures ShowsIndex(Opened(before, rule.domain, rule.version))
      ensures rule.domain in rules && rule.version in rules[rule.domain]
    {
      if rule.domain !in rules {
        rules := rules[rule.domain := map[]];
      }
      if rule.version !in rules[rule.domain] {
        rules := rules[rule.domain := rules[rule.domain][rule.version := map[]]];
      }
      forall d, v, e ensures EntryShows(d, v, e, Opened(before, rule.domain, rule.version)) {
        assert old(EntryShows(d, v, e, before));
        assert old(EntryShows(rule.domain, rule.version, e, before));
      }
    }

    method LoadRule(rule: Rule, parse: Parser, ghost before: Index<Option<RouteValue>>)
      requires Accepted(rule, parse) && ShowsIndex(before)
      modifies this`rules, this`urls
      ensures var after := AddEndpoints(Opened(before, rule.domain, rule.version), rule, |rule.endpoints|, parse);
        after.Ok? && ShowsIndex(after.value)
      ensures fresh(urls - old(urls))
    {
      OpenRule(rule, before);
      ghost var start := Opened(before, rule.domain, rule.version);
      for k := 0 to |rule.endpoints|
        invariant AddEndpoints(start, rule, k, parse).Ok? && ShowsIndex(AddEndpoints(start, rule, k, parse).value)
        invariant fresh(urls - old(urls))
      {
        AcceptedBuilds(rule, rule.endpoints[k], parse);
        var built := BuildEntry(rule, rule.endpoints[k], parse);
        StoreEntry(rule, rule.endpoints[k], built.value, BuildRoute(rule, rule.endpoints[k], parse).value,
                   AddEndpoints(start, rule, k, parse).value);
      }
    }

    method StoreEntry(rule: Rule, endpoint: string, entry: Option<Route>, ghost value: Option<RouteValue>,
                      ghost before: Index<Option<RouteValue>>)
      requires ShowsIndex(before) && rule.domain in before && rule.version in before[rule.domain]
      requires ShowsBuilt(Ok(entry), Ok(value))
      modifies this`rules, this`urls
      ensures ShowsIndex(Stored(before, rule.domain, rule.version, endpoint, value))
      ensures urls == old(urls) + if entry.Some? && entry.value.url != null then {entry.value.url} else {}
    {
      assert EntryShows(rule.domain, rule.version, endpoint, before);
      var versions := rules[rule.domain];
      rules := rules[rule.domain := versions[rule.version := versions[rule.version][endpoint := entry]]];
      urls := urls + if entry.Some? && entry.value.url != null then {entry.value.url} else {};
      forall d, v, e ensures EntryShows(d, v, e, Stored(before, rule.domain, rule.version, endpoint, value)) {
        assert old(EntryShows(d, v, e, before));
        StoredLookup(before, rule.domain, rule.version, endpoint, value, d, v, e);
        StoredLookup(old(rules), rule.domain, rule.version, endpoint, entry, d, v, e);
      }
    }

    ghost predicate ShowsAnswer(answer: Result<Route, RouteError>, value: Answer)
      reads if answer.Ok? && answer.value.url != null then {answer.value.url} else {}
    {
      if answer.Err? then value == Err(answer.error) else value.Ok? && Shows(answer.value, value.value)
    }

    /** Copies an override URL before joining, so the shared one keeps its path. */
    method OverrideRoute(shared: Url?, endpoint: string, name: string) returns (answer: Result<Route, RouteError>)
      ensures ShowsAnswer(answer, OverrideTo(if shared == null then None else Some(shared.Value()), endpoint, name))
      ensures answer.Ok? && answer.value.url != null ==> fresh(answer.value.url)
    {
      if shared == null {
        return Err(NotConfigured(name));
      }
      var target := new Url(UrlValue(shared.path, shared.rest));
      var joined := JoinInto(target, endpoint);
      target.path := joined;
      return Ok(Route(URL, target, "", "", true));
    }

    method HandleProtocolMapping(route: Route, uri: string, endpoint: string, parse: Urls, ghost value: RouteValue)
      returns (answer: Result<Route, RouteError>)
      requires Shows(route, value)
      ensures ShowsAnswer(answer, Mapped(value, uri, endpoint, parse))
    {
      var target := TrimSpace(uri);
      if |target| == 0 {
        if route.url == null {
          return Err(NoDestination);
        }
        return Ok(Route(URL, route.url, "", "", route.actAsProxy));
      }
      var parsed := parse.parse(target);
      if parsed.None? {
        return Err(BadUri);
      }
      var targetUrl := Resolved(parsed.value, endpoint);
      return Ok(Route(URL, targetUrl, "", "", route.actAsProxy));
    }

    method Extract(route: Route, request: Request, endpoint: string, parse: Urls, ghost value: RouteValue)
      returns (answer: Result<Route, RouteError>)
      requires Shows(route, value)
      ensures ShowsAnswer(answer, Extracted(value, request, endpoint, parse))
    {
      var text := request.extracted(route.jsonPath);
      if text.None? || TrimSpace(text.value) == "" {
        return Err(BadExtract);
      }
      var parsed := parse.resolve(request.url, text.value);
      if parsed.None? {
        return Err(BadUri);
      }
      var targetUrl := Resolved(parsed.value, endpoint);
      return Ok(Route(URL, targetUrl, "", "", route.actAsProxy));
    }

    method TryOverrides(route: Route, request: Request, endpoint: string, ghost value: RouteValue)
      returns (answer: Option<Result<Route, RouteError>>)
      requires Shows(route, value)
      ensures var expected := Overridden(OverrideValues(), request, value, endpoint);
        answer.Some? == expected.Some? && (answer.Some? ==> ShowsAnswer(answer.value, expected.value))
    {
      var r;
      if request.attached && route.actAsProxy && endpoint in CARE_ENDPOINTS {
        if CookieSet(request, "use_care") {
          r := OverrideRoute(careUrl, endpoint, "CARE_URL");
          return Some(r);
        }
      }
      if request.attached && route.actAsProxy && endpoint == "search" {
        if CookieSet(request, "use_gateway") {
          r := OverrideRoute(gatewayUrl, endpoint, "GATEWAY_URL");
          return Some(r);
        }
      }
      if request.attached && route.actAsProxy {
        if CookieSet(request, "use_tunnel_for_fis") {
          r := OverrideRoute(fisTunnelUrl, endpoint, "FIS_TUNNEL_URL");
          return Some(r);
        }
      }
      return None;
    }

    /** Answers a request. Nothing that existed before changes: not the index, not the routes' URLs,
        not the override URLs. */
    method RouteRequest(request: Request, parse: Urls, ghost index: Index<Option<RouteValue>>)
      returns (answer: Result<Route, RouteError>)
      requires ShowsIndex(index) && NoNil(index)
      ensures ShowsAnswer(answer, Routed(index, OverrideValues(), request, parse))
      ensures ShowsIndex(index)
    {
      if request.body.None? {
        return Err(BadBody);
      }
      var body := request.body.value;
      var endpoint := Base(request.url.path);
      var version := body.version;
      if version == "" {
        version := body.coreVersion;
      }
      assert EntryShows(body.domain, version, endpoint, index);
      assert Lookup(index, body.domain, version, endpoint) != Some(None);
      if body.domain !in rules {
        return Err(NoDomain);
      }
      if version !in rules[body.domain] {
        return Err(NoVersion);
      }
      if endpoint !in rules[body.domain][version] {
        return Err(NoEndpoint);
      }
      var entry := rules[body.domain][version][endpoint];
      var route := entry.value;
      ghost var value := index[body.domain][version][endpoint].value;
      var overridden := TryOverrides(route, request, endpoint, value);
      if overridden.Some? {
        return overridden.value;
      }
      if route.targetType == BPP {
        answer := HandleProtocolMapping(route, body.bppUri, endpoint, parse, value);
      } else if route.targetType == BAP {
        answer := HandleProtocolMapping(route, body.bapUri, endpoint, parse, value);
      } else if route.targetType == JSON_PATH {
        answer := Extract(route, request, endpoint, parse, value);
      } else {
        answer := Ok(route);
      }
    }

    /** A run of requests: each answer depends on its request alone, so equal requests get equal
        answers, and index and override URLs end as they began. */
    method RouteAll(requests: seq<Request>, parse: Urls, ghost index: Index<Option<RouteValue>>)
      returns (answers: seq<Result<Route, RouteError>>)
      requires ShowsIndex(index) && NoNil(index)
      ensures |answers| == |requests|
      ensures forall i :: 0 <= i < |answers| ==>
        ShowsAnswer(answers[i], Routed(index, OverrideValues(), requests[i], parse))
      ensures ShowsIndex(index) && OverrideValues() == old(OverrideValues())
    {
      answers := [];
      for i := 0 to |requests|
        invariant |answers| == i && ShowsIndex(index) && OverrideValues() == old(OverrideValues())
        invariant forall j :: 0 <= j < i ==>
          ShowsAnswer(answers[j], Routed(index, OverrideValues(), requests[j], parse))
      {
        var answer := RouteRequest(requests[i], parse, index);
        answers := answers + [answer];
      }
    }
  }
}
