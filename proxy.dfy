/**
 * The reverse proxy's dispatch rule.  Four handlers are registered once, in
 * order: a local `GET /health`, the backend API mount, the frontend mount and
 * a root mount for the Zellij web client guarded by a path filter.  A request
 * is served by the first registration that takes it; one that no
 * registration takes gets the default 404.
 *
 * Route and mount matching belong to the web framework and are an assumption
 * here, following its defaults: a mount at `base` takes a path equal to `base`
 * (without a trailing slash) or one that continues it with `/`; a `GET` route
 * takes its path with or without a trailing slash, and also answers `HEAD`;
 * both compare paths without regard to the case of ASCII letters.  The root
 * filter and the API path rewrite are the program's own code and compare
 * case-sensitively.
 */
module Proxy {
  import opened Text

  /** The environment settings the routes depend on (each with its default in `Defaults`). */
  datatype Config = Config(
    zellijHost: string, zellijPort: string,
    backendHost: string, backendPort: string,
    frontendHost: string, frontendPort: string,
    frontendBasePath: string, apiBasePath: string)

  const Defaults := Config("127.0.0.1", "8083", "localhost", "3001", "localhost", "5173", "/zviewer", "/zviewer/api")

  function ZellijTarget(c: Config): string
  {
    "http://" + c.zellijHost + ":" + c.zellijPort
  }

  function BackendTarget(c: Config): string
  {
    "http://" + c.backendHost + ":" + c.backendPort
  }

  /** The frontend target carries the frontend base path itself. */
  function FrontendTarget(c: Config): string
  {
    "http://" + c.frontendHost + ":" + c.frontendPort + c.frontendBasePath
  }

  /** The targets the default settings give. */
  lemma DefaultTargets()
    ensures ZellijTarget(Defaults) == "http://127.0.0.1:8083"
    ensures BackendTarget(Defaults) == "http://localhost:3001"
    ensures FrontendTarget(Defaults) == "http://localhost:5173/zviewer"
  {
  }

  datatype Upstream = Backend | Frontend | Zellij
  {
    /** Only the frontend and Zellij mounts forward WebSocket upgrades. */
    predicate WebSocket()
    {
      this != Backend
    }
  }

  /** A registration: a `GET` route for one path, or a mount with the path prefixes its filter refuses. */
  datatype Registration =
    | Get(path: string)
    | Mount(base: string, upstream: Upstream, refused: seq<string>)

  /** The registrations, in the order they are made. */
  function Registrations(c: Config): seq<Registration>
  {
    [ Get("/health"),
      Mount(c.apiBasePath, Backend, []),
      Mount(c.frontendBasePath, Frontend, []),
      Mount("/", Zellij, [c.frontendBasePath, "/health"]) ]
  }

  /** A mount's base without its trailing slash. */
  function MountBase(base: string): (b: string)
    ensures b + (if |b| < |base| then "/" else "") == base
  {
    if |base| > 0 && base[|base| - 1] == '/' then base[..|base| - 1] else base
  }

  predicate IsUpperAscii(c: char)
  {
    'A' <= c <= 'Z'
  }

  function LowerAscii(c: char): char
  {
    if IsUpperAscii(c) then (c as int + 32) as char else c
  }

  /** Equal up to the case of ASCII letters: how the framework compares paths. */
  predicate SameIgnoringCase(a: string, b: string)
  {
    |a| == |b| && forall i :: 0 <= i < |a| ==> LowerAscii(a[i]) == LowerAscii(b[i])
  }

  predicate StartsWithIgnoringCase(s: string, prefix: string)
  {
    |prefix| <= |s| && SameIgnoringCase(s[..|prefix|], prefix)
  }

  /** Between strings without upper-case ASCII letters, comparing ignoring case is plain comparison. */
  lemma LowercaseMatch(s: string, p: string)
    requires forall i :: 0 <= i < |s| ==> !IsUpperAscii(s[i])
    requires forall i :: 0 <= i < |p| ==> !IsUpperAscii(p[i])
    ensures SameIgnoringCase(s, p) <==> s == p
    ensures StartsWithIgnoringCase(s, p) <==> StartsWith(s, p)
  {
    if SameIgnoringCase(s, p) {
      forall i | 0 <= i < |s|
        ensures s[i] == p[i]
      {
        assert LowerAscii(s[i]) == LowerAscii(p[i]);
      }
    }
    if StartsWithIgnoringCase(s, p) {
      forall i | 0 <= i < |p|
        ensures s[i] == p[i]
      {
        assert LowerAscii(s[..|p|][i]) == LowerAscii(p[i]);
      }
      assert s[..|p|] == p;
    }
  }

  /** The assumed mount rule: the path is the base, or lies below it, ignoring case. */
  predicate UnderMount(base: string, path: string)
  {
    var b := MountBase(base);
    SameIgnoringCase(path, b) || StartsWithIgnoringCase(path, b + "/")
  }

  /** The paths the health route matches: `/health`, with or without a trailing slash, in any case. */
  predicate HealthPath(path: string)
  {
    SameIgnoringCase(path, "/health") || SameIgnoringCase(path, "/health/")
  }

  /** What the health route takes: `GET`, or `HEAD`, which the framework serves with the `GET` handler. */
  predicate HealthRequest(verb: string, path: string)
  {
    (verb == "GET" || verb == "HEAD") && HealthPath(path)
  }

  /** The root filter: the path starts with none of the refused prefixes. */
  predicate PassesFilter(refused: seq<string>, path: string)
  {
    forall i :: 0 <= i < |refused| ==> !StartsWith(path, refused[i])
  }

  predicate Takes(r: Registration, verb: string, path: string)
  {
    match r
    case Get(p) => (verb == "GET" || verb == "HEAD") && (SameIgnoringCase(path, p) || SameIgnoringCase(path, p + "/"))
    case Mount(base, _, refused) => UnderMount(base, path) && PassesFilter(refused, path)
  }

  /**
   * Some route, as opposed to a mount, matches the path, whatever its
   * method: the condition for the framework's own answer to `OPTIONS`.
   */
  predicate OnSomeRoute(rs: seq<Registration>, path: string)
  {
    exists j :: 0 <= j < |rs| && rs[j].Get? && (SameIgnoringCase(path, rs[j].path) || SameIgnoringCase(path, rs[j].path + "/"))
  }

  /** The position of the first registration from `from` on that takes the request. */
  function FirstTaker(rs: seq<Registration>, verb: string, path: string, from: nat): (i: int)
    requires from <= |rs|
    decreases |rs| - from
    ensures i == -1 || from <= i < |rs|
    ensures 0 <= i ==> Takes(rs[i], verb, path)
    ensures forall j :: from <= j < |rs| && (i < 0 || j < i) ==> !Takes(rs[j], verb, path)
  {
    if from == |rs| then -1
    else if Takes(rs[from], verb, path) then from
    else FirstTaker(rs, verb, path, from + 1)
  }

  /** What the proxy does with a request. */
  datatype Outcome =
    | Health(zellij: string, frontend: string, backend: string)   // 200 `{status: 'ok', timestamp, services}`
    | Forward(upstream: Upstream, target: string, path: string)
    | Options(allow: string)   // 200, with the `Allow` header and the body both listing the route's methods
    | NotFound

  /** The methods a `GET` route lists when the framework answers `OPTIONS` for it. */
  const GetRouteMethods: string := "GET,HEAD"

  /** The `pathRewrite` of the API mount: the API base path removed from the front. */
  function StripApiBase(c: Config, path: string): (r: string)
    ensures StartsWith(path, c.apiBasePath) ==> c.apiBasePath + r == path
    ensures !StartsWith(path, c.apiBasePath) ==> r == path
  {
    if StartsWith(path, c.apiBasePath) then path[|c.apiBasePath|..] else path
  }

  function Dispatch(c: Config, r: Registration, path: string): Outcome
  {
    match r
    case Get(_) => Health(ZellijTarget(c), FrontendTarget(c), BackendTarget(c))
    case Mount(_, Backend, _) => Forward(Backend, BackendTarget(c) + "/api", StripApiBase(c, path))
    case Mount(_, Frontend, _) => Forward(Frontend, FrontendTarget(c), path)
    case Mount(_, Zellij, _) => Forward(Zellij, ZellijTarget(c), path)
  }

  /**
   * The outcome of a request: the first registration that takes it handles
   * it.  When none does, the framework answers an `OPTIONS` request whose
   * path a route matches by itself, and anything else gets 404.
   */
  function Route(c: Config, verb: string, path: string): Outcome
  {
    var rs := Registrations(c);
    var i := FirstTaker(rs, verb, path, 0);
    if 0 <= i then Dispatch(c, rs[i], path)
    else if verb == "OPTIONS" && OnSomeRoute(rs, path) then Options(GetRouteMethods)
    else NotFound
  }

  /** The routing written out as the chain of decisions the registration order makes. */
  lemma RouteDecision(c: Config, verb: string, path: string)
    ensures Route(c, verb, path) ==
      if HealthRequest(verb, path) then
        Health(ZellijTarget(c), FrontendTarget(c), BackendTarget(c))
      else if UnderMount(c.apiBasePath, path) then
        Forward(Backend, BackendTarget(c) + "/api", StripApiBase(c, path))
      else if UnderMount(c.frontendBasePath, path) then
        Forward(Frontend, FrontendTarget(c), path)
      else if UnderMount("/", path) && !StartsWith(path, c.frontendBasePath) && !StartsWith(path, "/health") then
        Forward(Zellij, ZellijTarget(c), path)
      else if verb == "OPTIONS" && HealthPath(path) then
        Options(GetRouteMethods)
      else NotFound
  {
    var rs := Registrations(c);
    assert OnSomeRoute(rs, path) <==> HealthPath(path) by {
      assert "/health" + "/" == "/health/";
      assert rs[0] == Get("/health");
    }
    assert PassesFilter(rs[3].refused, path) <==> !StartsWith(path, c.frontendBasePath) && !StartsWith(path, "/health") by {
      assert rs[3].refused[0] == c.frontendBasePath && rs[3].refused[1] == "/health";
    }
    assert PassesFilter(rs[1].refused, path) && PassesFilter(rs[2].refused, path);
  }

  /**
   * Exactly the health requests get the health reply, whatever the case of
   * their letters; the framework's `OPTIONS` answer is given only on the
   * health route's paths; nothing that starts with `/health` reaches Zellij.
   */
  lemma HealthIsLocal(c: Config, verb: string, path: string)
    ensures Route(c, verb, path).Health? <==> HealthRequest(verb, path)
    ensures Route(c, verb, path).Options? ==> verb == "OPTIONS" && HealthPath(path)
    ensures StartsWith(path, "/health") ==> Route(c, verb, path) != Forward(Zellij, ZellijTarget(c), path)
  {
    RouteDecision(c, verb, path);
  }

  /**
   * A path under the API mount that is not a health request goes to the
   * backend, relative to a target ending in `/api`.  When it starts with the
   * API base path exactly, that prefix is removed and putting it back gives
   * the original path; the rewrite is case-sensitive, so a path that matches
   * the mount only up to case is forwarded whole.
   */
  lemma ApiPathStripped(c: Config, verb: string, path: string)
    requires UnderMount(c.apiBasePath, path) && !HealthRequest(verb, path)
    ensures Route(c, verb, path).Forward? && Route(c, verb, path).upstream == Backend
    ensures Route(c, verb, path).target == BackendTarget(c) + "/api"
    ensures StartsWith(path, c.apiBasePath) ==> c.apiBasePath + Route(c, verb, path).path == path
    ensures !StartsWith(path, c.apiBasePath) ==> Route(c, verb, path).path == path
  {
    RouteDecision(c, verb, path);
  }

  /** The frontend mount forwards the path unchanged to a target that already ends with the base path. */
  lemma FrontendKeepsPath(c: Config, verb: string, path: string)
    requires Route(c, verb, path).Forward? && Route(c, verb, path).upstream == Frontend
    ensures Route(c, verb, path) == Forward(Frontend, FrontendTarget(c), path)
    ensures UnderMount(c.frontendBasePath, path) && !UnderMount(c.apiBasePath, path)
  {
    RouteDecision(c, verb, path);
  }

  /** WebSocket upgrades are forwarded on the frontend and Zellij routes, never on the API route. */
  lemma WebSocketRoutes(c: Config, verb: string, path: string)
    requires Route(c, verb, path).Forward?
    ensures Route(c, verb, path).upstream.WebSocket() <==> !UnderMount(c.apiBasePath, path)
  {
    RouteDecision(c, verb, path);
  }

  /** `RouteDecision` for the default configuration. */
  lemma DefaultRoute(verb: string, path: string)
    ensures Route(Defaults, verb, path) ==
        if HealthRequest(verb, path) then
          Health(ZellijTarget(Defaults), FrontendTarget(Defaults), BackendTarget(Defaults))
        else if SameIgnoringCase(path, "/zviewer/api") || StartsWithIgnoringCase(path, "/zviewer/api/") then
          Forward(Backend, BackendTarget(Defaults) + "/api", StripApiBase(Defaults, path))
        else if SameIgnoringCase(path, "/zviewer") || StartsWithIgnoringCase(path, "/zviewer/") then
          Forward(Frontend, FrontendTarget(Defaults), path)
        else if (path == "" || StartsWith(path, "/")) && !StartsWith(path, "/zviewer") && !StartsWith(path, "/health") then
          Forward(Zellij, ZellijTarget(Defaults), path)
        else if verb == "OPTIONS" && HealthPath(path) then
          Options(GetRouteMethods)
        else NotFound
  {
    RouteDecision(Defaults, verb, path);
    RootMountTakes(path);
    assert MountBase("/zviewer") == "/zviewer";
    assert MountBase("/zviewer/api") == "/zviewer/api";
  }

  /** The root mount takes the empty path and every path that starts with `/`. */
  lemma RootMountTakes(path: string)
    ensures UnderMount("/", path) <==> path == "" || StartsWith(path, "/")
  {
    assert MountBase("/") == "";
    if StartsWithIgnoringCase(path, "/") {
      assert LowerAscii(path[..1][0]) == '/';
    }
  }

  /** With the defaults, the API base path lies inside the frontend mount, yet API paths never reach the frontend. */
  lemma ApiShadowsFrontend(verb: string, path: string)
    requires UnderMount(Defaults.apiBasePath, path)
    ensures UnderMount(Defaults.frontendBasePath, path)
    ensures Route(Defaults, verb, path).Forward? && Route(Defaults, verb, path).upstream == Backend
  {
    DefaultRoute(verb, path);
    ApiPathUnderFrontend(path);
    assert MountBase("/zviewer") == "/zviewer";
    assert LowerAscii(path[1]) != LowerAscii("/health"[1]);
  }

  lemma ApiPathUnderFrontend(path: string)
    requires UnderMount(Defaults.apiBasePath, path)
    ensures StartsWithIgnoringCase(path, "/zviewer/")
  {
    assert MountBase("/zviewer/api") == "/zviewer/api";
    forall i | 0 <= i < 9
      ensures LowerAscii(path[..9][i]) == LowerAscii("/zviewer/"[i])
    {
      if SameIgnoringCase(path, "/zviewer/api") {
        assert LowerAscii(path[i]) == LowerAscii("/zviewer/api"[i]);
      } else {
        assert LowerAscii(path[..13][i]) == LowerAscii("/zviewer/api/"[i]);
      }
    }
  }

  /**
   * With the defaults, Zellij receives exactly the paths that the root
   * filter passes and that neither the frontend mount nor the health route
   * takes, matching up to case.
   */
  lemma ZellijTakesTheRest(verb: string, path: string)
    requires StartsWith(path, "/")
    ensures Route(Defaults, verb, path) == Forward(Zellij, ZellijTarget(Defaults), path)
      <==> !StartsWith(path, "/zviewer") && !StartsWith(path, "/health")
           && !UnderMount("/zviewer", path) && !HealthRequest(verb, path)
  {
    DefaultRoute(verb, path);
    assert MountBase("/zviewer") == "/zviewer";
    if UnderMount("/zviewer/api", path) {
      ApiShadowsFrontend(verb, path);
    }
  }

  /** For a path without upper-case ASCII letters, Zellij receives it exactly when it starts with neither `/zviewer` nor `/health`. */
  lemma ZellijTakesLowercase(verb: string, path: string)
    requires StartsWith(path, "/")
    requires forall i :: 0 <= i < |path| ==> !IsUpperAscii(path[i])
    ensures Route(Defaults, verb, path) == Forward(Zellij, ZellijTarget(Defaults), path)
      <==> !StartsWith(path, "/zviewer") && !StartsWith(path, "/health")
  {
    ZellijTakesTheRest(verb, path);
    if UnderMount("/zviewer", path) {
      LowercaseUnderZviewer(path);
    }
    if HealthRequest(verb, path) {
      LowercaseHealth(path);
    }
  }

  lemma LowercaseUnderZviewer(path: string)
    requires forall i :: 0 <= i < |path| ==> !IsUpperAscii(path[i])
    requires UnderMount("/zviewer", path)
    ensures StartsWith(path, "/zviewer")
  {
    assert MountBase("/zviewer") == "/zviewer";
    forall i | 0 <= i < 8
      ensures path[i] == "/zviewer"[i]
    {
      if SameIgnoringCase(path, "/zviewer") {
        assert LowerAscii(path[i]) == LowerAscii("/zviewer"[i]);
      } else {
        assert LowerAscii(path[..9][i]) == LowerAscii("/zviewer/"[i]);
      }
    }
    assert path[..8] == "/zviewer";
  }

  lemma LowercaseHealth(path: string)
    requires forall i :: 0 <= i < |path| ==> !IsUpperAscii(path[i])
    requires SameIgnoringCase(path, "/health") || SameIgnoringCase(path, "/health/")
    ensures StartsWith(path, "/health")
  {
    forall i | 0 <= i < 7
      ensures path[i] == "/health"[i]
    {
      if SameIgnoringCase(path, "/health") {
        assert LowerAscii(path[i]) == LowerAscii("/health"[i]);
      } else {
        assert LowerAscii(path[i]) == LowerAscii("/health/"[i]);
      }
    }
    assert path[..7] == "/health";
  }

  /** `/healthz` starts with `/health`, so the root filter refuses it, and no other route takes it. */
  lemma HealthzNotServed()
    ensures Route(Defaults, "GET", "/healthz") == NotFound
  {
    var path := "/healthz";
    DefaultRoute("GET", path);
    assert LowerAscii(path[7]) != LowerAscii("/health/"[7]);
    assert LowerAscii(path[1]) != LowerAscii("/zviewer/"[1]);
    assert StartsWith(path, "/health");
  }

  /** The health route answers only `GET` and `HEAD`, and the root filter refuses `/health` for every other method. */
  lemma PostHealthNotServed()
    ensures Route(Defaults, "POST", "/health") == NotFound
  {
    var path := "/health";
    DefaultRoute("POST", path);
    assert StartsWith(path, "/health");
  }

  /** `/zviewerx` lies outside the frontend mount, yet the root filter refuses it as starting with `/zviewer`. */
  lemma ZviewerxNotServed()
    ensures Route(Defaults, "GET", "/zviewerx") == NotFound
  {
    var path := "/zviewerx";
    DefaultRoute("GET", path);
    assert LowerAscii(path[8]) != LowerAscii("/zviewer/"[8]);
    assert StartsWith(path, "/zviewer");
  }

  /**
   * With the defaults, `OPTIONS` on a health path is answered by the
   * framework when the path starts with `/health` as written, which the root
   * filter refuses; in any other case the root mount forwards it to Zellij.
   */
  lemma OptionsOnHealthPath(path: string)
    requires HealthPath(path)
    ensures StartsWith(path, "/health") ==> Route(Defaults, "OPTIONS", path) == Options(GetRouteMethods)
    ensures !StartsWith(path, "/health") ==> Route(Defaults, "OPTIONS", path) == Forward(Zellij, ZellijTarget(Defaults), path)
  {
    DefaultRoute("OPTIONS", path);
    assert LowerAscii(path[0]) == '/' && LowerAscii(path[1]) == 'h';
    assert path[..1] == "/";
  }

  /** `GET /HEALTH` is answered locally: the health route ignores case. */
  lemma HealthAnyCase()
    ensures Route(Defaults, "GET", "/HEALTH").Health?
  {
    HealthIsLocal(Defaults, "GET", "/HEALTH");
    UpperHealthMatches();
  }

  lemma UpperHealthMatches()
    ensures SameIgnoringCase("/HEALTH", "/health")
  {
  }

  /** `/ZVIEWER/x` reaches the frontend: the mount ignores case, and it comes before the case-sensitive root filter. */
  lemma UpperFrontendPath()
    ensures Route(Defaults, "GET", "/ZVIEWER/x") == Forward(Frontend, FrontendTarget(Defaults), "/ZVIEWER/x")
  {
    DefaultRoute("GET", "/ZVIEWER/x");
    UpperFrontendMatches();
  }

  lemma UpperFrontendMatches()
    ensures StartsWithIgnoringCase("/ZVIEWER/x", "/zviewer/")
  {
  }

  /** The API mount ignores case but its path rewrite does not: `/ZVIEWER/API/x` reaches the backend unstripped. */
  lemma UpperApiPathKept()
    ensures Route(Defaults, "GET", "/ZVIEWER/API/x")
      == Forward(Backend, BackendTarget(Defaults) + "/api", "/ZVIEWER/API/x")
  {
    var path := "/ZVIEWER/API/x";
    DefaultRoute("GET", path);
    UpperApiMatches();
    assert path[1] != "/zviewer/api"[1];
  }

  lemma UpperApiMatches()
    ensures StartsWithIgnoringCase("/ZVIEWER/API/x", "/zviewer/api/")
  {
  }
}
