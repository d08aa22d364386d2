/**
  The destination HTTP client's own redirect loop: at most five hops, each checked against the
  configured origin before the next request goes out.
*/
module Redirects {
  import opened Options

  // ---------- URLs ----------

  datatype Parts = Parts(scheme: string, netloc: string)

  /** The place of the first character in `stops`, or the length. */
  function First(s: string, stops: string): (i: nat)
    ensures i <= |s|
    ensures i < |s| ==> s[i] in stops
    ensures forall j :: 0 <= j < i ==> s[j] !in stops
  {
    if s == "" || s[0] in stops then 0 else 1 + First(s[1..], stops)
  }

  predicate Letter(c: char) {
    'a' <= c <= 'z' || 'A' <= c <= 'Z'
  }

  predicate SchemeChar(c: char) {
    Letter(c) || '0' <= c <= '9' || c == '+' || c == '-' || c == '.'
  }

  function Lower(s: string): string {
    seq(|s|, i requires 0 <= i < |s| => if 'A' <= s[i] <= 'Z' then s[i] + ' ' else s[i])
  }

  /** The length of the scheme, where the text has one. */
  function SchemeLength(url: string): Option<nat> {
    var i := First(url, ":");
    if 0 < i < |url| && Letter(url[0]) && forall j :: 0 <= j < i ==> SchemeChar(url[j]) then Some(i) else None
  }

  function Netloc(rest: string): string {
    if |rest| >= 2 && rest[0] == '/' && rest[1] == '/' then rest[2..][..First(rest[2..], "/?#")] else ""
  }

  function Split(url: string): Parts {
    var i := SchemeLength(url);
    if i.Some? then Parts(Lower(url[..i.value]), Netloc(url[i.value + 1..])) else Parts("", Netloc(url))
  }

  datatype Port = Default | Port(number: nat) | BadPort

  /** What the URL library makes of an authority, and of a reference; both are someone else's code. */
  datatype Urls = Urls(host: string -> string, port: string -> Port, join: (string, string) -> Option<string>)

  datatype Origin = Origin(scheme: string, host: string, port: nat)

  /** Scheme, host and effective port; a malformed port raises. */
  function ParseOrigin(urls: Urls, url: string): Option<Origin> {
    var p := Split(url);
    var host := urls.host(p.netloc);
    match urls.port(p.netloc)
    case BadPort => None
    case Port(n) => Some(Origin(p.scheme, host, n))
    case Default => Some(Origin(p.scheme, host, if p.scheme == "https" then 443 else 80))
  }

  /** The port a URL stands for: its own, or 443 for https and 80 for anything else; none if it is malformed. */
  ghost predicate StandsFor(urls: Urls, url: string, port: nat) {
    match urls.port(Split(url).netloc)
    case Port(n) => port == n
    case Default => port == if Split(url).scheme == "https" then 443 else 80
    case BadPort => false
  }

  /** Two URLs have one origin exactly if they agree in scheme, host and effective port, written out or not. */
  lemma SameOriginExactly(urls: Urls, a: string, b: string)
    ensures (ParseOrigin(urls, a).Some? && ParseOrigin(urls, a) == ParseOrigin(urls, b))
            <==> && Split(a).scheme == Split(b).scheme && urls.host(Split(a).netloc) == urls.host(Split(b).netloc)
                 && exists port :: StandsFor(urls, a, port) && StandsFor(urls, b, port)
  {
    if ParseOrigin(urls, a).Some? {
      assert StandsFor(urls, a, ParseOrigin(urls, a).value.port);
    }
  }

  // ---------- One hop ----------

  datatype Response = Response(status: int, location: Option<string>)

  /** The keyword arguments handed on to every request: `data` and `files`, where given and not empty. */
  datatype Passed = Passed(data: Option<string>, files: Option<string>)

  /** `json` is the JSON body argument. */
  datatype Request = Request(verb: string, url: string, query: Option<string>, json: Option<string>, passed: Passed)

  /** A GET that carries no body of any kind. */
  predicate Plain(r: Request) {
    r.verb == "GET" && r.json.None? && r.passed == Passed(None, None)
  }

  datatype Result = Returned(response: Response) | Raised

  const MAX_REDIRECT_HOPS := 5

  predicate IsRedirect(status: int) {
    status == 301 || status == 302 || status == 303 || status == 307 || status == 308
  }

  /** What to do with an answer: return it, follow it, or fail on a malformed reference. */
  datatype Decision = Stop | Follow(url: string) | Fail

  /** With or without the test for a step down from HTTPS to HTTP. */
  function Verdict(urls: Urls, origin: Origin, current: string, response: Response, guardDowngrade: bool): Decision {
    if !IsRedirect(response.status) || response.location.None? || response.location.value == "" then Stop
    else
      var next := urls.join(current, response.location.value);
      if next.None? then Fail
      else
        var p := Split(next.value);
        if '@' in p.netloc || urls.host(p.netloc) == "" then Stop
        else if guardDowngrade && Split(current).scheme == "https" && p.scheme == "http" then Stop
        else
          var nextOrigin := ParseOrigin(urls, next.value);
          if nextOrigin.None? then Fail
          else if nextOrigin.value != origin then Stop
          else Follow(next.value)
  }

  function Decide(urls: Urls, origin: Origin, current: string, response: Response): (d: Decision)
    ensures d.Follow? ==> response.status in {301, 302, 303, 307, 308} && ParseOrigin(urls, d.url) == Some(origin)
  {
    Verdict(urls, origin, current, response, true)
  }

  /**
    From a URL in the origin the step-down test decides nothing the origin test would not:
    leaving it out changes the decision exactly for a step down to a target whose port is
    malformed, which would then raise instead of being returned.
  */
  lemma DowngradeImplied(urls: Urls, origin: Origin, current: string, response: Response)
    requires ParseOrigin(urls, current) == Some(origin)
    ensures var guarded, bare := Decide(urls, origin, current, response), Verdict(urls, origin, current, response, false);
            && (guarded.Follow? || bare.Follow? ==> guarded == bare)
            && (guarded != bare <==> bare == Fail && Split(current).scheme == "https"
                                     && var next := urls.join(current, response.location.value);
                                        next.Some? && Split(next.value).scheme == "http")
  {
  }

  /** An answer is followed exactly if it is a redirect to a URL of the same origin without user information. */
  lemma FollowedExactly(urls: Urls, origin: Origin, current: string, response: Response, url: string)
    requires ParseOrigin(urls, current) == Some(origin)
    ensures Decide(urls, origin, current, response) == Follow(url)
            <==> && response.status in {301, 302, 303, 307, 308} && response.location.Some? && response.location.value != ""
                 && urls.join(current, response.location.value) == Some(url)
                 && '@' !in Split(url).netloc && origin.host != "" && ParseOrigin(urls, url) == Some(origin)
  {
  }

  /**
    It raises exactly for a redirect whose reference cannot be joined, or whose target, of a
    host without user information and no step down to HTTP, has a malformed port.
  */
  lemma FailsExactly(urls: Urls, origin: Origin, current: string, response: Response)
    ensures Decide(urls, origin, current, response) == Fail
            <==> && response.status in {301, 302, 303, 307, 308} && response.location.Some? && response.location.value != ""
                 && match urls.join(current, response.location.value)
                    case None => true
                    case Some(url) =>
                      && '@' !in Split(url).netloc && urls.host(Split(url).netloc) != "" && urls.port(Split(url).netloc).BadPort?
                      && !(Split(current).scheme == "https" && Split(url).scheme == "http")
  {
  }

  // ---------- A whole exchange ----------

  /** How answers are judged: `Decide` for the configured origin. */
  type Judge = (string, Response) -> Decision

  /**
    The request that follows an answer: where the judge says, without query, and after a 303 a
    GET without JSON body. What was passed on goes along every time.
  */
  ghost predicate Follows(judge: Judge, previous: Request, answer: Option<Response>, next: Request) {
    && answer.Some?
    && judge(previous.url, answer.value) == Follow(next.url)
    && next.query == None
    && next.verb == (if answer.value.status == 303 then "GET" else previous.verb)
    && next.json == (if answer.value.status == 303 then None else previous.json)
    && next.passed == previous.passed
  }

  ghost predicate Exchange(judge: Judge, server: nat -> Option<Response>, log: seq<Request>) {
    && log != []
    && forall k: nat :: k < |log| - 1 ==> Follows(judge, log[k], server(k), log[k + 1])
  }

  /** The last answer is returned, unless it cannot be read; it is one to follow only if it was the fifth. */
  ghost predicate Ends(
    judge: Judge, last: Request, answer: Option<Response>, count: nat, result: Result)
  {
    if answer.None? then result == Raised
    else
      var d := judge(last.url, answer.value);
      && result == (if d == Fail then Raised else Returned(answer.value))
      && (d.Follow? ==> count == 5)
  }

  lemma OneMore(
    judge: Judge, server: nat -> Option<Response>, log: seq<Request>, next: Request)
    requires log != [] ==> Exchange(judge, server, log)
                           && Follows(judge, log[|log| - 1], server(|log| - 1), next)
    ensures Exchange(judge, server, log + [next])
  {
  }

  /** The server may answer anything at each hop, or not at all; the exchange ends with an answer not followed, or the fifth. */
  method RequestFollowingSameOrigin(
    judge: Judge, server: nat -> Option<Response>,
    verb: string, startUrl: string, query: Option<string>, json: Option<string>, passed: Passed)
    returns (result: Result, log: seq<Request>)
    ensures |log| <= 5
    ensures Exchange(judge, server, log)
    ensures log[0] == Request(verb, startUrl, query, json, passed)
    ensures Ends(judge, log[|log| - 1], server(|log| - 1), |log|, result)
  {
    log := [];
    result := Raised;
    var method_, currentUrl, params, body := verb, startUrl, query, json;
    for hop := 0 to MAX_REDIRECT_HOPS
      invariant |log| == hop
      invariant hop == 0 ==> Request(method_, currentUrl, params, body, passed) == Request(verb, startUrl, query, json, passed)
      invariant hop > 0 ==>
                  && log[0] == Request(verb, startUrl, query, json, passed)
                  && Exchange(judge, server, log)
                  && Follows(judge, log[hop - 1], server(hop - 1), Request(method_, currentUrl, params, body, passed))
                  && result == Returned(server(hop - 1).value)
    {
      OneMore(judge, server, log, Request(method_, currentUrl, params, body, passed));
      log := log + [Request(method_, currentUrl, params, body, passed)];
      var answer := server(hop);
      if answer.None? {
        return Raised, log;
      }
      var resp := answer.value;
      result := Returned(resp);
      match judge(currentUrl, resp)
      case Stop => return;
      case Fail => return Raised, log;
      case Follow(nextUrl) =>
        if resp.status == 303 {
          method_, body := "GET", None;
        }
        params := None;
        currentUrl := nextUrl;
    }
  }

  /** Every later request of an exchange is in the origin, and carries no query. */
  lemma LaterRequestsInOrigin(urls: Urls, origin: Origin, server: nat -> Option<Response>, log: seq<Request>, k: nat)
    requires Exchange((current, response) => Decide(urls, origin, current, response), server, log) && 0 < k < |log|
    ensures ParseOrigin(urls, log[k].url) == Some(origin) && log[k].query == None
    ensures server(k - 1).Some? && server(k - 1).value.status in {301, 302, 303, 307, 308}
  {
    var judge := (current, response) => Decide(urls, origin, current, response);
    assert Follows(judge, log[k - 1], server(k - 1), log[k - 1 + 1]);
  }

  /** Is one of the first k answers a 303? */
  ghost predicate SeenOther(server: nat -> Option<Response>, k: nat) {
    exists j: nat :: j < k && server(j).Some? && server(j).value.status == 303
  }

  /** Once an answer was a 303, every later request is a GET without JSON body; before that both are the caller's. What was passed on stays. */
  lemma {:induction false} SeeOtherSticks(judge: Judge, server: nat -> Option<Response>, log: seq<Request>, k: nat)
    requires Exchange(judge, server, log) && k < |log|
    ensures log[k].verb == (if SeenOther(server, k) then "GET" else log[0].verb)
    ensures log[k].json == (if SeenOther(server, k) then None else log[0].json)
    ensures log[k].passed == log[0].passed
  {
    if k > 0 {
      SeeOtherSticks(judge, server, log, k - 1);
      assert Follows(judge, log[k - 1], server(k - 1), log[k - 1 + 1]);
    }
  }

  ghost predicate InOrigin(urls: Urls, origin: Option<Origin>, log: seq<Request>) {
    forall k :: 0 <= k < |log| ==> ParseOrigin(urls, log[k].url) == origin
  }

  ghost predicate QueryOnce(log: seq<Request>) {
    forall k :: 0 < k < |log| ==> log[k].query == None
  }

  ghost predicate GetAfterSeeOther(server: nat -> Option<Response>, log: seq<Request>) {
    forall k: nat :: k < |log| && SeenOther(server, k) ==> log[k].verb == "GET" && log[k].json == None
  }

  ghost predicate PlainAfterSeeOther(server: nat -> Option<Response>, log: seq<Request>) {
    forall k: nat :: k < |log| && SeenOther(server, k) ==> Plain(log[k])
  }

  /**
    The requests after a 303 carry no body exactly if no `data` or `files` were passed, or no 303
    was followed: the conversion clears the JSON body alone.
  */
  lemma PlainExactly(judge: Judge, server: nat -> Option<Response>, log: seq<Request>)
    requires Exchange(judge, server, log)
    ensures GetAfterSeeOther(server, log)
    ensures PlainAfterSeeOther(server, log) <==> log[0].passed == Passed(None, None) || !SeenOther(server, |log| - 1)
  {
    forall k: nat | k < |log|
      ensures SeenOther(server, k) ==> log[k].verb == "GET" && log[k].json == None
      ensures log[k].passed == log[0].passed
    {
      SeeOtherSticks(judge, server, log, k);
    }
  }

  ghost predicate EndsWith(judge: Judge, server: nat -> Option<Response>, log: seq<Request>, result: Result)
    requires log != []
  {
    Ends(judge, log[|log| - 1], server(|log| - 1), |log|, result)
  }

  /** A whole run: from the first request on, up to an answer that is not followed. */
  ghost predicate IsRun(judge: Judge, server: nat -> Option<Response>, first: Request, log: seq<Request>) {
    && |log| <= 5 && Exchange(judge, server, log) && log[0] == first
    && exists result :: EndsWith(judge, server, log, result)
  }

  /** Against any server, the requests after a 303 are plain. */
  ghost predicate AlwaysPlain(judge: Judge, first: Request) {
    forall server, log :: IsRun(judge, server, first, log) ==> PlainAfterSeeOther(server, log)
  }

  /** Some 303 can be followed from this URL. */
  ghost predicate CanSeeOther(judge: Judge, url: string) {
    exists r: Response :: r.status == 303 && judge(url, r).Follow?
  }

  /** A server that answers once, with a 303. */
  lemma SeeOtherRun(judge: Judge, first: Request, r: Response) returns (server: nat -> Option<Response>, log: seq<Request>)
    requires r.status == 303 && judge(first.url, r).Follow?
    ensures IsRun(judge, server, first, log) && |log| == 2 && server(0) == Some(r) && SeenOther(server, 1)
    ensures log[1] == Request("GET", judge(first.url, r).url, None, None, first.passed)
  {
    server := (k: nat) => if k == 0 then Some(r) else None;
    log := [first, Request("GET", judge(first.url, r).url, None, None, first.passed)];
    assert Follows(judge, log[0], server(0), log[0 + 1]);
    assert EndsWith(judge, server, log, Raised);
  }

  /**
    Before the call, where a 303 that can be followed at all can be followed from the first URL:
    requests after a 303 are always plain exactly if no `data` or `files` are passed, or none can.
  */
  lemma AlwaysPlainExactly(judge: Judge, first: Request)
    requires forall url :: CanSeeOther(judge, url) ==> CanSeeOther(judge, first.url)
    ensures AlwaysPlain(judge, first) <==> first.passed == Passed(None, None) || !CanSeeOther(judge, first.url)
  {
    if first.passed != Passed(None, None) && CanSeeOther(judge, first.url) {
      var r: Response :| r.status == 303 && judge(first.url, r).Follow?;
      var server, log := SeeOtherRun(judge, first, r);
      assert !Plain(log[1]);
    } else {
      forall server, log | IsRun(judge, server, first, log)
        ensures PlainAfterSeeOther(server, log)
      {
        PlainExactly(judge, server, log);
        if !CanSeeOther(judge, first.url) {
          NoneSeen(judge, server, log);
        }
      }
    }
  }

  lemma NoneSeen(judge: Judge, server: nat -> Option<Response>, log: seq<Request>)
    requires Exchange(judge, server, log) && forall url :: !CanSeeOther(judge, url)
    ensures !SeenOther(server, |log| - 1)
  {
    forall j: nat | j < |log| - 1
      ensures !(server(j).Some? && server(j).value.status == 303)
    {
      assert Follows(judge, log[j], server(j), log[j + 1]);
      assert !CanSeeOther(judge, log[j].url);
    }
  }

  /** The URL library resolves an absolute URL to itself, up to what comes after the authority. */
  ghost predicate KeepsAbsolute(urls: Urls) {
    forall base, url :: Split(url).scheme != "" && urls.host(Split(url).netloc) != "" ==>
                          urls.join(base, url).Some? && Split(urls.join(base, url).value) == Split(url)
  }

  /** From a first URL in the origin, the whole exchange stays there. */
  lemma ExchangeInOrigin(urls: Urls, origin: Origin, server: nat -> Option<Response>, log: seq<Request>)
    requires Exchange((current, response) => Decide(urls, origin, current, response), server, log)
    ensures ParseOrigin(urls, log[0].url) == Some(origin) <==> InOrigin(urls, Some(origin), log)
    ensures QueryOnce(log)
  {
    forall k: nat | 0 < k < |log|
      ensures ParseOrigin(urls, log[k].url) == Some(origin) && log[k].query == None
    {
      LaterRequestsInOrigin(urls, origin, server, log, k);
    }
  }

  /** What can be followed from one URL can be followed from any in the origin: its location may be given in full. */
  lemma FollowedFromAnywhere(urls: Urls, origin: Origin, current: string, other: string, r: Response)
    requires KeepsAbsolute(urls) && origin.scheme != "" && ParseOrigin(urls, other) == Some(origin)
    requires Decide(urls, origin, current, r).Follow?
    ensures Decide(urls, origin, other, Response(r.status, Some(Decide(urls, origin, current, r).url))).Follow?
  {
    var target := Decide(urls, origin, current, r).url;
    assert Split(target).scheme == origin.scheme;
    assert target != "";
    SameParts(urls, urls.join(other, target).value, target);
    DowngradeImplied(urls, origin, other, Response(r.status, Some(target)));
  }

  // ---------- The client ----------

  /** Without the slashes at its end. */
  function TrimEnd(s: string): (r: string)
    ensures r <= s && (r != "" ==> r[|r| - 1] != '/')
    ensures forall i :: |r| <= i < |s| ==> s[i] == '/'
  {
    if s != "" && s[|s| - 1] == '/' then TrimEnd(s[..|s| - 1]) else s
  }

  /** Without the slashes at its start. */
  function TrimStart(s: string): (r: string)
    ensures |r| <= |s| && r == s[|s| - |r|..] && (r != "" ==> r[0] != '/')
    ensures forall i :: 0 <= i < |s| - |r| ==> s[i] == '/'
  {
    if s != "" && s[0] == '/' then TrimStart(s[1..]) else s
  }

  function RequestUrl(base: string, path: string): string {
    if path == "" then base else base + "/" + TrimStart(path)
  }

  lemma FirstExtends(s: string, t: string, stops: string)
    ensures First(s, stops) < |s| ==> First(s + t, stops) == First(s, stops)
    ensures First(s, stops) == |s| ==> First(s + t, stops) == |s| + First(t, stops)
  {
    var u := s + t;
    assert forall j :: 0 <= j < |s| ==> u[j] == s[j];
    assert forall j :: 0 <= j < |t| ==> u[|s| + j] == t[j];
  }

  lemma NetlocExtends(rest: string, path: string)
    requires rest == "" || rest[|rest| - 1] != '/'
    requires path == "" || path[0] != '/'
    ensures Netloc(rest + "/" + path) == Netloc(rest)
  {
    var t := "/" + path;
    var all := rest + "/" + path;
    assert all == rest + t;
    if |rest| >= 2 {
      assert all[0] == rest[0] && all[1] == rest[1];
      assert all[2..] == rest[2..] + t;
      FirstExtends(rest[2..], t, "/?#");
      assert First(t, "/?#") == 0;
    } else if |rest| == 1 {
      assert all[0] == rest[0];
    } else {
      assert all[0] == '/';
      assert |all| >= 2 ==> all[1] == path[0];
    }
  }

  lemma SchemeExtends(base: string, path: string)
    ensures SchemeLength(base + "/" + path) == SchemeLength(base)
  {
    var t := "/" + path;
    var all := base + "/" + path;
    assert all == base + t;
    FirstExtends(base, t, ":");
    assert forall j :: 0 <= j < |base| ==> all[j] == base[j];
    if First(base, ":") == |base| {
      assert all[|base|] == '/' && !SchemeChar('/');
      assert First(t, ":") >= 1;
    }
  }

  lemma SplitExtends(base: string, path: string)
    requires base == "" || base[|base| - 1] != '/'
    requires path == "" || path[0] != '/'
    ensures Split(base + "/" + path) == Split(base)
  {
    SchemeExtends(base, path);
    var all := base + "/" + path;
    var scheme := SchemeLength(base);
    if scheme.Some? {
      var i := scheme.value;
      var rest := base[i + 1..];
      assert all[..i] == base[..i];
      assert all[i + 1..] == rest + "/" + path;
      NetlocExtends(rest, path);
    } else {
      NetlocExtends(base, path);
    }
  }

  /** Appending a path to the configured URL never changes where the request goes. */
  lemma PathKeepsOrigin(urls: Urls, url: string, path: string)
    ensures ParseOrigin(urls, RequestUrl(TrimEnd(url), path)) == ParseOrigin(urls, TrimEnd(url))
  {
    var base := TrimEnd(url);
    if path != "" {
      SplitExtends(base, TrimStart(path));
      SameParts(urls, base + "/" + TrimStart(path), base);
    }
  }

  /**
    For a destination URL with scheme, host and no user information, what a client sends after a
    303 is plain against every server exactly if the caller passes no `data` or `files`.
  */
  lemma SendsPlainExactly(urls: Urls, url: string, path: string, verb: string, query: Option<string>, json: Option<string>, passed: Passed)
    requires KeepsAbsolute(urls) && ParseOrigin(urls, TrimEnd(url)).Some?
    requires var base := Split(TrimEnd(url)); base.scheme != "" && urls.host(base.netloc) != "" && '@' !in base.netloc
    ensures var origin := ParseOrigin(urls, TrimEnd(url)).value;
            AlwaysPlain((current, response) => Decide(urls, origin, current, response),
                        Request(verb, RequestUrl(TrimEnd(url), path), query, json, passed))
            <==> passed == Passed(None, None)
  {
    var base := TrimEnd(url);
    var start := RequestUrl(base, path);
    var origin := ParseOrigin(urls, base).value;
    var judge := (current, response) => Decide(urls, origin, current, response);
    PathKeepsOrigin(urls, url, path);
    SelfRedirect(urls, origin, start, base);
    assert judge(start, Response(303, Some(base))).Follow?;
    assert CanSeeOther(judge, start);
    AlwaysPlainExactly(judge, Request(verb, start, query, json, passed));
  }

  /** A 303 to the configured URL itself is followed. */
  lemma SelfRedirect(urls: Urls, origin: Origin, start: string, base: string)
    requires KeepsAbsolute(urls) && ParseOrigin(urls, base) == ParseOrigin(urls, start) == Some(origin)
    requires Split(base).scheme != "" && urls.host(Split(base).netloc) != "" && '@' !in Split(base).netloc
    ensures Decide(urls, origin, start, Response(303, Some(base))).Follow?
  {
    assert base != "";
    SameParts(urls, urls.join(start, base).value, base);
    DowngradeImplied(urls, origin, start, Response(303, Some(base)));
  }

  lemma SameParts(urls: Urls, a: string, b: string)
    requires Split(a) == Split(b)
    ensures ParseOrigin(urls, a) == ParseOrigin(urls, b)
  {
  }

  datatype Mode = NoRedirects | SameOrigin

  datatype Client = Client(baseUrl: string, origin: Origin, mode: Mode)

  /** A client for a destination; a destination URL with a malformed port is refused. */
  function Connect(urls: Urls, url: string, mode: Mode): Option<Client> {
    var base := TrimEnd(url);
    var origin := ParseOrigin(urls, base);
    if origin.Some? then Some(Client(base, origin.value, mode)) else None
  }

  /** Against any server, everything a client ever sends goes to the origin it was configured with. */
  method Send(
    urls: Urls, url: string, mode: Mode, server: nat -> Option<Response>,
    verb: string, path: string, query: Option<string>, json: Option<string>, passed: Passed)
    returns (result: Result, log: seq<Request>)
    ensures Connect(urls, url, mode).None? <==> log == []
    ensures log == [] <==> forall port :: !StandsFor(urls, TrimEnd(url), port)
    ensures log == [] ==> result == Raised
    ensures log != [] ==>
              && log[0] == Request(verb, RequestUrl(TrimEnd(url), path), query, json, passed)
              && log[0].url == (if path == "" then TrimEnd(url) else TrimEnd(url) + "/" + TrimStart(path))
    ensures InOrigin(urls, ParseOrigin(urls, TrimEnd(url)), log)
    ensures QueryOnce(log) && GetAfterSeeOther(server, log)
    ensures log != [] ==> (PlainAfterSeeOther(server, log) <==> passed == Passed(None, None) || !SeenOther(server, |log| - 1))
    ensures |log| <= if mode == NoRedirects then 1 else 5
    ensures log != [] && mode == NoRedirects ==> result == if server(0).Some? then Returned(server(0).value) else Raised
    ensures log != [] && mode == SameOrigin ==>
              var origin := ParseOrigin(urls, TrimEnd(url)).value;
              Ends((current, response) => Decide(urls, origin, current, response), log[|log| - 1], server(|log| - 1), |log|, result)
  {
    var client := Connect(urls, url, mode);
    if client.None? {
      return Raised, [];
    }
    assert StandsFor(urls, TrimEnd(url), client.value.origin.port);
    var fullUrl := RequestUrl(client.value.baseUrl, path);
    PathKeepsOrigin(urls, url, path);
    var judge := (current, response) => Decide(urls, client.value.origin, current, response);
    if mode == SameOrigin {
      result, log := RequestFollowingSameOrigin(judge, server, verb, fullUrl, query, json, passed);
    } else {
      log := [Request(verb, fullUrl, query, json, passed)];
      var answer := server(0);
      result := if answer.Some? then Returned(answer.value) else Raised;
    }
    ExchangeInOrigin(urls, client.value.origin, server, log);
    PlainExactly(judge, server, log);
  }

  // ---------- Data passed on after a 303 ----------

  function HttpsUrl(path: string): string {
    "https" + ":" + ("//" + "h" + "/" + path)
  }

  /** A URL library for one host: every reference is taken as a path there. */
  function OneHost(): Urls {
    Urls(netloc => netloc, netloc => Default, (base, reference) => Some(HttpsUrl(reference)))
  }

  /** A scheme as section 3.1 of RFC 3986 has it, in letters of either case. */
  ghost predicate IsScheme(scheme: string) {
    && scheme != "" && ('a' <= scheme[0] <= 'z' || 'A' <= scheme[0] <= 'Z')
    && forall i :: 0 <= i < |scheme| ==> SchemeCharacter(scheme[i])
  }

  ghost predicate SchemeCharacter(c: char) {
    'a' <= c <= 'z' || 'A' <= c <= 'Z' || '0' <= c <= '9' || c in "+-."
  }

  /** The same text in lower case. */
  ghost predicate LowerCaseOf(lower: string, s: string) {
    && |lower| == |s|
    && forall i :: 0 <= i < |s| ==> lower[i] as int == s[i] as int + if 'A' <= s[i] <= 'Z' then 32 else 0
  }

  lemma SchemeOf(scheme: string, rest: string)
    requires IsScheme(scheme)
    ensures SchemeLength(scheme + ":" + rest) == Some(|scheme|) && LowerCaseOf(Lower(scheme), scheme)
  {
    var tail := ":" + rest;
    var all := scheme + ":" + rest;
    assert all == scheme + tail;
    assert forall i :: 0 <= i < |scheme| ==> SchemeCharacter(scheme[i]) && scheme[i] !in ":";
    assert First(scheme, ":") == |scheme|;
    assert tail[0] == ':' && ':' in ":";
    FirstExtends(scheme, tail, ":");
    assert forall i :: 0 <= i < |scheme| ==> all[i] == scheme[i];
  }

  lemma NetlocOf(host: string, tail: string)
    requires (forall c :: c in host ==> c !in "/?#") && (tail == "" || tail[0] in "/?#")
    ensures Netloc("//" + host + tail) == host
  {
    var rest := "//" + host + tail;
    assert rest[0] == rest[1] == '/' && rest[2..] == host + tail;
    assert First(host, "/?#") == |host|;
    assert First(tail, "/?#") == 0;
    FirstExtends(host, tail, "/?#");
  }

  /** Of an absolute URL the scheme counts in lower case, and the authority is what stands up to the path, query or fragment. */
  lemma SplitAbsolute(scheme: string, host: string, tail: string)
    requires IsScheme(scheme)
    requires (forall c :: c in host ==> c !in "/?#") && (tail == "" || tail[0] in "/?#")
    ensures var parts := Split(scheme + ":" + ("//" + host + tail)); LowerCaseOf(parts.scheme, scheme) && parts.netloc == host
  {
    var rest := "//" + host + tail;
    var all := scheme + ":" + rest;
    SchemeOf(scheme, rest);
    NetlocOf(host, tail);
    assert all[..|scheme|] == scheme && all[|scheme| + 1..] == rest;
  }

  lemma HttpsParts(path: string)
    ensures Split(HttpsUrl(path)) == Parts("https", "h")
  {
    var tail := "/" + path;
    assert "//" + "h" + "/" + path == "//" + "h" + tail;
    SplitAbsolute("https", "h", tail);
  }

  lemma OneHostFollows(path: string, target: string)
    requires target != ""
    ensures Decide(OneHost(), Origin("https", "h", 443), HttpsUrl(path), Response(303, Some(target))) == Follow(HttpsUrl(target))
  {
    HttpsParts(path);
    HttpsParts(target);
  }

  /** In particular, to a POST with `data` a 303 is followed by a GET that carries the data again. */
  lemma DataSentAgain(path: string, target: string, data: string) returns (server: nat -> Option<Response>, log: seq<Request>)
    requires target != ""
    ensures IsRun((current, response) => Decide(OneHost(), Origin("https", "h", 443), current, response), server,
                  Request("POST", HttpsUrl(path), None, None, Passed(Some(data), None)), log)
    ensures |log| == 2 && server(0) == Some(Response(303, Some(target)))
    ensures log[1] == Request("GET", HttpsUrl(target), None, None, Passed(Some(data), None))
  {
    var origin := Origin("https", "h", 443);
    var judge := (current, response) => Decide(OneHost(), origin, current, response);
    var first := Request("POST", HttpsUrl(path), None, None, Passed(Some(data), None));
    OneHostFollows(path, target);
    server, log := SeeOtherRun(judge, first, Response(303, Some(target)));
  }
}
