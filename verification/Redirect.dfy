/** The redirect loop of a transfer. The network is a sequence of answers, one
    per exchange, so every run is covered by quantifying over that sequence. */
module Redirect {
  import opened Wrappers

  datatype Verb = Head | Get | Other(name: string)

  /** `origin` is the encoded origin the source compares. */
  datatype Url = Url(scheme: string, origin: string, hostPort: string, target: string, userinfo: string) {
    function WithoutUserinfo(): Url { this.(userinfo := "") }
  }

  datatype Request = Request(
    verb: Verb,
    target: string,
    host: string,
    authorization: Option<string>,
    cookie: Option<string>,
    referer: Option<Url>,
    contentLength: Option<string>,
    contentEncoding: Option<string>,
    contentType: Option<string>,
    expectation: Option<string>)

  datatype Config = Config(
    post301: bool, post302: bool, post303: bool,
    followLocation: bool,
    maxRedirs: nat,
    requestTarget: Option<string>,
    unrestrictedAuth: bool,
    autoReferer: bool,
    protoRedir: set<string>,
    explicitCookies: string)

  /** How the Set-Cookie fields of a response parse: a malformed one makes the jar's
      caller throw an error code, a number out of range a plain exception. */
  datatype Cookies = Fine | MalformedCookie | BadNumber

  /** What the network does with one request. `location` is the resolved target of
      a redirect; `drained` says whether the body to be discarded could be read;
      `connects` whether a new connection, if one is needed, can be opened. */
  datatype Answer =
    | Fails(code: nat)
    | Response(status: nat, cookies: Cookies, http11: bool, close: bool, location: Option<Url>,
               drained: bool, connects: bool)

  /** `jarField` is what the cookie jar offers for the request's URL. */
  datatype Exchange = Exchange(jarField: string, answer: Answer)

  datatype Reason =
    | RequestFailed(code: nat) | BadSetCookie | BadCookieNumber
    | TooManyRedirects | BadRedirect | ProtocolDisabled | ConnectFailed

  datatype Outcome = Final(status: nat) | Threw(reason: Reason) | Unfinished

  /** A request as it goes out, with the origin its connection was opened for and
      whether the response parser was between two messages. */
  datatype Sent = Sent(url: Url, request: Request, body: Option<string>, connectedTo: string, atBoundary: bool)

  // ---------------------------------------------------------- pure decisions

  /** The statuses on which a request goes on as GET, unless its flag keeps it. */
  predicate DropsMethod(cfg: Config, status: nat) {
    || (status == 301 && !cfg.post301)
    || (status == 302 && !cfg.post302)
    || (status == 303 && !cfg.post303)
  }

  function IsRedirect(cfg: Config, status: nat): (r: (bool, bool))
    ensures r.0 <==> status in {301, 302, 303, 307, 308}
    ensures r.1 <==> DropsMethod(cfg, status)
  {
    match status
    case 301 => (true, !cfg.post301)
    case 302 => (true, !cfg.post302)
    case 303 => (true, !cfg.post303)
    case 307 => (true, false)
    case 308 => (true, false)
    case _ => (false, false)
  }

  predicate CanReuse(answer: Answer, a: Url, b: Url)
    requires answer.Response?
  {
    a.origin == b.origin && answer.http11 && !answer.close
  }

  // ------------------------------------------------- what a run has to look like

  /** The URL of the k-th request of a run. */
  function UrlAt(first: Url, env: seq<Exchange>, k: nat): Url
    requires k <= |env|
  {
    if k == 0 then first
    else
      match env[k - 1].answer
      case Response(_, _, _, _, Some(url), _, _) => url
      case _ => first
  }

  /** Some redirect before the k-th request changed the method. */
  ghost predicate MethodChanged(cfg: Config, verb: Verb, env: seq<Exchange>, k: nat)
    requires k <= |env|
  {
    !verb.Head? && exists j | 0 <= j < k :: env[j].answer.Response? && DropsMethod(cfg, env[j].answer.status)
  }

  /** All URLs up to the k-th request share the first one's origin. */
  ghost predicate StayedHome(first: Url, env: seq<Exchange>, k: nat)
    requires k <= |env|
  {
    forall j | 0 <= j <= k :: UrlAt(first, env, j).origin == first.origin
  }

  predicate AtHome(cfg: Config, first: Url, url: Url) { url.origin == first.origin || cfg.unrestrictedAuth }

  function CookieText(cfg: Config, first: Url, url: Url, jarField: string): string {
    jarField + if AtHome(cfg, first, url) then cfg.explicitCookies else ""
  }

  function Field(text: string): Option<string> { if text == "" then None else Some(text) }

  /** The k-th request of a run, in terms of the first request and the answers
      before it; only the cookie field also depends on the jar. */
  ghost function Promised(cfg: Config, first: Url, req: Request, body: Option<string>,
                          env: seq<Exchange>, k: nat, cookie: Option<string>): Sent
    requires k <= |env|
  {
    var url := UrlAt(first, env, k);
    var changed := MethodChanged(cfg, req.verb, env, k);
    var request := Request(
      if changed then Get else req.verb,
      if k == 0 then req.target else cfg.requestTarget.GetOr(url.target),
      if k == 0 then req.host else url.hostPort,
      if cfg.unrestrictedAuth || StayedHome(first, env, k) then req.authorization else None,
      cookie,
      if k > 0 && cfg.autoReferer then Some(UrlAt(first, env, k - 1).WithoutUserinfo()) else req.referer,
      if changed then None else req.contentLength,
      if changed then None else req.contentEncoding,
      if changed then None else req.contentType,
      if changed then None else req.expectation);
    Sent(url, request, if changed then None else body, url.origin, true)
  }

  ghost predicate AsPromised(cfg: Config, first: Url, req: Request, body: Option<string>,
                             env: seq<Exchange>, k: nat, s: Sent)
    requires k < |env|
  {
    s == Promised(cfg, first, req, body, env, k,
                  Field(CookieText(cfg, first, UrlAt(first, env, k), env[k].jarField)))
  }

  ghost predicate AllAsPromised(cfg: Config, first: Url, req: Request, body: Option<string>,
                                env: seq<Exchange>, sent: seq<Sent>)
  {
    |sent| <= |env| && forall k | 0 <= k < |sent| :: AsPromised(cfg, first, req, body, env, k, sent[k])
  }

  /** How the n-th exchange ends the loop, if it does. */
  function Ends(cfg: Config, first: Url, env: seq<Exchange>, n: nat): Option<Outcome>
    requires 0 < n <= |env|
  {
    match env[n - 1].answer
    case Fails(code) => Some(Threw(RequestFailed(code)))
    case Response(status, cookies, _, _, location, drained, connects) =>
      if cookies.MalformedCookie? then Some(Threw(BadSetCookie))
      else if cookies.BadNumber? then Some(Threw(BadCookieNumber))
      else if !IsRedirect(cfg, status).0 || !cfg.followLocation then Some(Final(status))
      else if n - 1 == cfg.maxRedirs then Some(Threw(TooManyRedirects))
      else if location.None? then Some(Threw(BadRedirect))
      else if location.value.scheme !in cfg.protoRedir then Some(Threw(ProtocolDisabled))
      else if CanReuse(env[n - 1].answer, UrlAt(first, env, n - 1), location.value) && drained then None
      else if connects then None
      else Some(Threw(ConnectFailed))
  }

  /** How the whole loop ends when n exchanges have not ended it. */
  function OutcomeFrom(cfg: Config, first: Url, env: seq<Exchange>, n: nat): Outcome
    requires n <= |env|
    decreases |env| - n
  {
    if n == |env| then Unfinished
    else
      match Ends(cfg, first, env, n + 1)
      case Some(o) => o
      case None => OutcomeFrom(cfg, first, env, n + 1)
  }

  /** The end of a run is determined by the answers. */
  function OutcomeOf(cfg: Config, first: Url, connects: bool, env: seq<Exchange>): Outcome {
    if connects then OutcomeFrom(cfg, first, env, 0) else Threw(ConnectFailed)
  }

  lemma {:induction false} FirstEndDecides(cfg: Config, first: Url, env: seq<Exchange>, n: nat, m: nat)
    requires n < m <= |env|
    requires forall k | n < k < m :: Ends(cfg, first, env, k) == None
    requires Ends(cfg, first, env, m).None? ==> m == |env|
    ensures OutcomeFrom(cfg, first, env, n) == Ends(cfg, first, env, m).GetOr(Unfinished)
    decreases m - n
  {
    if n + 1 < m {
      FirstEndDecides(cfg, first, env, n + 1, m);
    }
  }

  // ----------------------------------------------------------------- the loop

  /** Changes the method according to section 15.4.4 of RFC 9110. */
  method ChangeMethod(needMethodChange: bool, request: Request, msg: Option<string>)
    returns (request': Request, msg': Option<string>)
    ensures needMethodChange && request.verb != Head ==>
              && msg' == None
              && request' == request.(verb := Get, contentLength := None, contentEncoding := None,
                                      contentType := None, expectation := None)
    ensures !needMethodChange || request.verb == Head ==> msg' == msg && request' == request
  {
    request', msg' := request, msg;
    if needMethodChange && request.verb != Head {
      request' := request'.(verb := Get);
      request' := request'.(contentLength := None);
      request' := request'.(contentEncoding := None);
      request' := request'.(contentType := None);
      request' := request'.(expectation := None);
      msg' := None;
    }
  }

  /** Prepares the request that follows a redirect from `referer` to `url`. */
  method Prepare(cfg: Config, first: Url, referer: Url, url: Url, needMethodChange: bool,
                 request: Request, msg: Option<string>)
    returns (request': Request, msg': Option<string>, trusted: bool)
    ensures trusted <==> AtHome(cfg, first, url)
    ensures Sent(url, request', msg', url.origin, true)
         == Moved(cfg, first, Sent(referer, request, msg, referer.origin, true), url, needMethodChange)
  {
    request', msg' := ChangeMethod(needMethodChange, request, msg);
    request' := request'.(target := cfg.requestTarget.GetOr(url.target));
    trusted := first.origin == url.origin || cfg.unrestrictedAuth;
    if !trusted {
      request' := request'.(authorization := None);
    }
    if cfg.autoReferer {
      request' := request'.(referer := Some(referer.WithoutUserinfo()));
    }
    request' := request'.(host := url.hostPort);
  }

  /** One request and the next, in the terms of a single redirect. */
  ghost function Moved(cfg: Config, first: Url, s: Sent, url: Url, needMethodChange: bool): Sent {
    var r := s.request;
    var change := needMethodChange && !r.verb.Head?;
    var request := Request(
      if change then Get else r.verb,
      cfg.requestTarget.GetOr(url.target),
      url.hostPort,
      if AtHome(cfg, first, url) then r.authorization else None,
      r.cookie,
      if cfg.autoReferer then Some(s.url.WithoutUserinfo()) else r.referer,
      if change then None else r.contentLength,
      if change then None else r.contentEncoding,
      if change then None else r.contentType,
      if change then None else r.expectation);
    Sent(url, request, if change then None else s.body, url.origin, true)
  }

  lemma MethodChangedNext(cfg: Config, verb: Verb, env: seq<Exchange>, k: nat)
    requires k < |env| && env[k].answer.Response?
    ensures MethodChanged(cfg, verb, env, k + 1)
        <==> MethodChanged(cfg, verb, env, k) || (!verb.Head? && DropsMethod(cfg, env[k].answer.status))
  {
  }

  lemma StayedHomeNext(first: Url, env: seq<Exchange>, k: nat)
    requires k < |env|
    ensures StayedHome(first, env, k + 1)
        <==> StayedHome(first, env, k) && UrlAt(first, env, k + 1).origin == first.origin
  {
  }

  /** The promise is kept from one request to the next. */
  lemma PromisedNext(cfg: Config, first: Url, req: Request, body: Option<string>, env: seq<Exchange>, k: nat)
    requires k < |env| && env[k].answer.Response? && env[k].answer.location.Some?
    ensures Moved(cfg, first, Promised(cfg, first, req, body, env, k, None), UrlAt(first, env, k + 1),
                  IsRedirect(cfg, env[k].answer.status).1)
         == Promised(cfg, first, req, body, env, k + 1, None)
  {
    MethodChangedNext(cfg, req.verb, env, k);
    StayedHomeNext(first, env, k);
  }

  /** A request without its cookie field. */
  ghost function Bare(s: Sent): Sent { s.(request := s.request.(cookie := None)) }

  lemma PromiseKept(cfg: Config, first: Url, req: Request, body: Option<string>,
                    env: seq<Exchange>, k: nat, s: Sent, t: Sent)
    requires k < |env| && env[k].answer.Response? && env[k].answer.location.Some?
    requires Bare(s) == Promised(cfg, first, req, body, env, k, None)
    requires t == Moved(cfg, first, s, UrlAt(first, env, k + 1), IsRedirect(cfg, env[k].answer.status).1)
    ensures Bare(t) == Promised(cfg, first, req, body, env, k + 1, None)
  {
    PromisedNext(cfg, first, req, body, env, k);
    assert Bare(t) == Moved(cfg, first, Bare(s), UrlAt(first, env, k + 1), IsRedirect(cfg, env[k].answer.status).1);
  }

  /** set_cookies */
  method SetCookies(cfg: Config, jarField: string, trusted: bool, request: Request) returns (request': Request)
    ensures request' == request.(cookie := Field(jarField + if trusted then cfg.explicitCookies else ""))
  {
    var cookie := jarField;
    if trusted {
      cookie := cookie + cfg.explicitCookies;
    }
    assert cookie == jarField + if trusted then cfg.explicitCookies else "";
    request' := request.(cookie := None);
    if cookie != "" {
      request' := request'.(cookie := Some(cookie));
    }
  }

  /** What happens after a response: the loop ends, or the next URL is known and
      a connection to its origin stands at a message boundary. */
  method AfterAnswer(cfg: Config, first: Url, ghost env: seq<Exchange>, ghost i: nat, answer: Answer,
                     maxRedirs: nat, referer: Url, connectedTo: string)
    returns (ended: Option<Outcome>, url: Url, connectedTo': string, atBoundary: bool)
    requires i < |env| && answer == env[i].answer
    requires i + maxRedirs == cfg.maxRedirs && referer == UrlAt(first, env, i) && connectedTo == referer.origin
    ensures ended == Ends(cfg, first, env, i + 1)
    ensures ended.None? ==>
              && answer.Response? && answer.location == Some(url) && url == UrlAt(first, env, i + 1)
              && maxRedirs > 0 && connectedTo' == url.origin && atBoundary
  {
    url, connectedTo', atBoundary := referer, connectedTo, false;
    if answer.Fails? {
      return Some(Threw(RequestFailed(answer.code))), url, connectedTo', atBoundary;
    }
    if answer.cookies.MalformedCookie? {
      return Some(Threw(BadSetCookie)), url, connectedTo', atBoundary;
    }
    if answer.cookies.BadNumber? {
      return Some(Threw(BadCookieNumber)), url, connectedTo', atBoundary;
    }
    if !IsRedirect(cfg, answer.status).0 || !cfg.followLocation {
      return Some(Final(answer.status)), url, connectedTo', atBoundary;
    }
    if maxRedirs == 0 {
      return Some(Threw(TooManyRedirects)), url, connectedTo', atBoundary;
    }
    if answer.location.None? {
      return Some(Threw(BadRedirect)), url, connectedTo', atBoundary;
    }
    url := answer.location.value;
    if url.scheme !in cfg.protoRedir {
      return Some(Threw(ProtocolDisabled)), url, connectedTo', atBoundary;
    }
    if CanReuse(answer, referer, url) && answer.drained {
      return None, url, connectedTo', true;
    }
    if !answer.connects {
      return Some(Threw(ConnectFailed)), url, connectedTo', atBoundary;
    }
    return None, url, url.origin, true;
  }

  /** Every request that goes out is as promised: it is sent to the origin of its
      URL at a message boundary; it carries the initial authorization exactly as
      long as no URL has left the first origin; and so on. */
  method FollowRedirects(cfg: Config, first: Url, req: Request, body: Option<string>,
                         connects: bool, env: seq<Exchange>)
    returns (sent: seq<Sent>, outcome: Outcome)
    ensures |sent| <= |env| && |sent| <= cfg.maxRedirs + 1
    ensures AllAsPromised(cfg, first, req, body, env, sent)
    ensures forall k | 0 < k < |sent| :: Ends(cfg, first, env, k) == None
    ensures !connects ==> sent == []
    ensures sent == [] ==> outcome == (if connects then Unfinished else Threw(ConnectFailed))
    ensures sent == [] && connects ==> env == []
    ensures sent != [] ==> outcome == Ends(cfg, first, env, |sent|).GetOr(Unfinished)
    ensures sent != [] && Ends(cfg, first, env, |sent|).None? ==> |sent| == |env|
  {
    sent := [];
    if !connects {
      return sent, Threw(ConnectFailed);
    }
    var referer, trusted, maxRedirs := first, true, cfg.maxRedirs;
    var request, msg := req, body;
    var connectedTo, atBoundary := first.origin, true;
    for i := 0 to |env|
      invariant |sent| == i && maxRedirs >= 0 && i + maxRedirs == cfg.maxRedirs
      invariant AllAsPromised(cfg, first, req, body, env, sent)
      invariant forall k | 0 < k <= i :: Ends(cfg, first, env, k) == None
      invariant referer == UrlAt(first, env, i)
      invariant trusted <==> AtHome(cfg, first, referer)
      invariant Bare(Sent(referer, request, msg, connectedTo, atBoundary))
             == Promised(cfg, first, req, body, env, i, None)
    {
      request := SetCookies(cfg, env[i].jarField, trusted, request);
      var s := Sent(referer, request, msg, connectedTo, atBoundary);
      PromisedCookie(cfg, first, req, body, env, sent, s);
      sent := sent + [s];
      var ended, url;
      ended, url, connectedTo, atBoundary :=
        AfterAnswer(cfg, first, env, i, env[i].answer, maxRedirs, referer, connectedTo);
      if ended.Some? {
        return sent, ended.value;
      }
      maxRedirs := maxRedirs - 1;
      request, msg, trusted :=
        Prepare(cfg, first, referer, url, IsRedirect(cfg, env[i].answer.status).1, request, msg);
      PromiseKept(cfg, first, req, body, env, i, s, Sent(url, request, msg, connectedTo, atBoundary));
      referer := url;
    }
    outcome := Unfinished;
  }

  /** The promise in the terms of a cautious user: credentials do not leave the
      first origin, explicit cookies are withheld away from it, and once a redirect
      changed the method no later request has a body or describes one. */
  lemma CredentialsStayHome(cfg: Config, first: Url, req: Request, body: Option<string>,
                            env: seq<Exchange>, j: nat, k: nat, s: Sent)
    requires j <= k < |env| && !cfg.unrestrictedAuth && AsPromised(cfg, first, req, body, env, k, s)
    ensures s.request.authorization.Some? ==> UrlAt(first, env, j).origin == s.connectedTo == first.origin
    ensures s.connectedTo != first.origin ==> s.request.cookie == Field(env[k].jarField)
    ensures j < k && env[j].answer.Response? && DropsMethod(cfg, env[j].answer.status) && !req.verb.Head? ==>
              && s.request.verb == Get && s.body == None
              && s.request.contentLength == s.request.contentEncoding == None
              && s.request.contentType == s.request.expectation == None
  {
    assert UrlAt(first, env, k).origin == s.connectedTo;
    assert env[k].jarField + "" == env[k].jarField;
  }

  /** Some answer before the k-th request asked for GET: 301, 302 or 303 without the
      flag that keeps the method. */
  ghost predicate AskedForGet(cfg: Config, env: seq<Exchange>, k: nat)
    requires k <= |env|
  {
    exists j | 0 <= j < k ::
      && env[j].answer.Response?
      && (|| (env[j].answer.status == 301 && !cfg.post301)
          || (env[j].answer.status == 302 && !cfg.post302)
          || (env[j].answer.status == 303 && !cfg.post303))
  }

  /** Method, body and content fields of the k-th request by the statuses before it. */
  lemma MethodFollowsStatus(cfg: Config, first: Url, req: Request, body: Option<string>,
                            env: seq<Exchange>, k: nat, s: Sent)
    requires k < |env| && AsPromised(cfg, first, req, body, env, k, s)
    ensures req.verb != Head && AskedForGet(cfg, env, k) ==>
              && s.request.verb == Get && s.body == None
              && s.request.contentLength == s.request.contentEncoding == None
              && s.request.contentType == s.request.expectation == None
    ensures req.verb == Head || !AskedForGet(cfg, env, k) ==>
              && s.request.verb == req.verb && s.body == body
              && s.request.contentLength == req.contentLength && s.request.contentEncoding == req.contentEncoding
              && s.request.contentType == req.contentType && s.request.expectation == req.expectation
  {
  }

  /** The cookie field of the k-th request: the jar's text and, at the first origin
      or without restriction, the explicit cookies; no field when there is no text. */
  lemma CookieFieldOf(cfg: Config, first: Url, req: Request, body: Option<string>,
                      env: seq<Exchange>, k: nat, s: Sent)
    requires k < |env| && AsPromised(cfg, first, req, body, env, k, s)
    ensures var explicit := s.connectedTo == first.origin || cfg.unrestrictedAuth;
            var text := if explicit then env[k].jarField + cfg.explicitCookies else env[k].jarField;
            s.request.cookie == if text == "" then None else Some(text)
  {
    assert env[k].jarField + "" == env[k].jarField;
  }

  /** An answer that is a redirect to be followed, with a redirect left and a
      location that may be gone to. */
  predicate Followed(cfg: Config, answer: Answer, n: nat) {
    && answer.Response? && answer.cookies.Fine?
    && answer.status in {301, 302, 303, 307, 308} && cfg.followLocation
    && n != cfg.maxRedirs + 1
    && answer.location.Some? && answer.location.value.scheme in cfg.protoRedir
  }

  /** The n-th answer ends the loop, or another connection or the same one serves the
      next request: the same one only if origin, version and header allow it and
      the old body could be read to its end. */
  lemma EndsWhen(cfg: Config, first: Url, env: seq<Exchange>, n: nat)
    requires 0 < n <= |env|
    ensures var a := env[n - 1].answer;
            var reused := a.Response? && a.location.Some? && a.http11 && !a.close && a.drained
                          && UrlAt(first, env, n - 1).origin == a.location.value.origin;
            && (Ends(cfg, first, env, n).None? <==> Followed(cfg, a, n) && (reused || a.connects))
            && (Ends(cfg, first, env, n) == Some(Threw(ConnectFailed))
                <==> Followed(cfg, a, n) && !reused && !a.connects)
  {
  }

  /** Target, host and referer of a request that follows a redirect; the referer is the
      URL before, without its user information. */
  lemma RequestLineOf(cfg: Config, first: Url, req: Request, body: Option<string>,
                      env: seq<Exchange>, k: nat, s: Sent)
    requires 0 < k < |env| && AsPromised(cfg, first, req, body, env, k, s)
    ensures s.request.target == if cfg.requestTarget.Some? then cfg.requestTarget.value else s.url.target
    ensures s.request.host == s.url.hostPort && s.connectedTo == s.url.origin && s.atBoundary
    ensures env[k - 1].answer.Response? && env[k - 1].answer.location.Some? ==>
              s.url == env[k - 1].answer.location.value
    ensures var before := UrlAt(first, env, k - 1);
            s.request.referer ==
            if cfg.autoReferer then Some(Url(before.scheme, before.origin, before.hostPort, before.target, ""))
            else req.referer
  {
  }

  /** The first request goes out as it was made, but for the cookie field, and every
      request has its authorization exactly as long as all URLs so far had the first
      origin, or always without restriction. */
  lemma AuthorizationOf(cfg: Config, first: Url, req: Request, body: Option<string>,
                        env: seq<Exchange>, k: nat, s: Sent)
    requires k < |env| && AsPromised(cfg, first, req, body, env, k, s)
    ensures k == 0 ==> s.url == first && s.body == body && s.request.(cookie := None) == req.(cookie := None)
    ensures s.request.authorization ==
            if cfg.unrestrictedAuth || (forall j | 0 <= j <= k :: UrlAt(first, env, j).origin == first.origin)
            then req.authorization else None
  {
  }

  /** The exceptions of a redirect that is not followed, in the order they are looked for. */
  lemma GivesUpWhen(cfg: Config, first: Url, env: seq<Exchange>, n: nat)
    requires 0 < n <= |env|
    ensures var a := env[n - 1].answer;
            var redirect := a.Response? && a.cookies.Fine? && cfg.followLocation
                            && a.status in {301, 302, 303, 307, 308};
            && (Ends(cfg, first, env, n) == Some(Threw(TooManyRedirects)) <==> redirect && n == cfg.maxRedirs + 1)
            && (Ends(cfg, first, env, n) == Some(Threw(BadRedirect)) <==>
                  redirect && n != cfg.maxRedirs + 1 && a.location.None?)
            && (Ends(cfg, first, env, n) == Some(Threw(ProtocolDisabled)) <==>
                  redirect && n != cfg.maxRedirs + 1 && a.location.Some? && a.location.value.scheme !in cfg.protoRedir)
  {
  }

  lemma FinalWhen(cfg: Config, first: Url, env: seq<Exchange>, n: nat)
    requires 0 < n <= |env|
    ensures var a := env[n - 1].answer;
            && (a.Fails? ==> Ends(cfg, first, env, n) == Some(Threw(RequestFailed(a.code))))
            && (a.Response? && a.cookies.MalformedCookie? <==> Ends(cfg, first, env, n) == Some(Threw(BadSetCookie)))
            && (a.Response? && a.cookies.BadNumber? <==> Ends(cfg, first, env, n) == Some(Threw(BadCookieNumber)))
            && (Ends(cfg, first, env, n).Some? && Ends(cfg, first, env, n).value.Final? <==>
                  && a.Response? && a.cookies.Fine?
                  && (a.status !in {301, 302, 303, 307, 308} || !cfg.followLocation))
            && (Ends(cfg, first, env, n).Some? && Ends(cfg, first, env, n).value.Final? ==>
                  Ends(cfg, first, env, n).value.status == a.status)
  {
  }

  lemma PromisedCookie(cfg: Config, first: Url, req: Request, body: Option<string>,
                       env: seq<Exchange>, sent: seq<Sent>, s: Sent)
    requires |sent| < |env| && AllAsPromised(cfg, first, req, body, env, sent)
    requires Bare(s) == Promised(cfg, first, req, body, env, |sent|, None)
    requires s.request.cookie == Field(CookieText(cfg, first, UrlAt(first, env, |sent|), env[|sent|].jarField))
    ensures AllAsPromised(cfg, first, req, body, env, sent + [s])
  {
  }
}
