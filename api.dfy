/**
 * The controller side of the filter: request bodies, the two response
 * extractors, the `/tmp/token` cache (`getToken`) and the bounded retry of the
 * service-profile lookup (`getServiceProfile`), as functions over a Session
 * value. The HTTPS exchange itself is an oracle: an `Api` gives the response
 * to the last request of a call history.
 */
module UcsApi {
  import opened Wrappers
  import opened UcsText

  datatype Request = Request(host: string, body: string)

  /** The response the controller gives to the last request of `history`. */
  type Api = seq<Request> -> string

  /** `domain`, `username` and the contents of `passwordFile`. */
  datatype Credentials = Credentials(domain: string, username: string, password: string)

  /** The token file (absent, or present with its contents) and every call made so far. */
  datatype Session = Session(tokenFile: Option<string>, calls: seq<Request>)

  // ---------------------------------------------------------------------
  // Request bodies

  function FullUsername(c: Credentials): string {
    c.domain + "\\" + c.username
  }

  function LoginBody(c: Credentials): string {
    "<aaaLogin inName=\"" + FullUsername(c) + "\" inPassword=\"" + c.password + "\"></aaaLogin>"
  }

  /** A nil token formats as "" under `%s`, so the token is a string here. */
  function QueryBody(token: string, dn: string): string {
    "<configResolveDn cookie=\"" + token + "\" dn=\"" + dn + "\"></configResolveDn>"
  }

  const LoginPrefix := "<aaaLogin "
  const QueryPrefix := "<configResolveDn "

  predicate StartsWith(s: string, p: string) {
    |p| <= |s| && s[..|p|] == p
  }

  /** A `configResolveDn` query carrying `dn`. */
  ghost predicate IsQueryFor(r: Request, dn: string) {
    exists token :: r.body == QueryBody(token, dn)
  }

  lemma BodyKinds(c: Credentials, token: string, dn: string)
    ensures StartsWith(LoginBody(c), LoginPrefix) && !StartsWith(LoginBody(c), QueryPrefix)
    ensures StartsWith(QueryBody(token, dn), QueryPrefix) && !StartsWith(QueryBody(token, dn), LoginPrefix)
  {
    var l := LoginBody(c);
    var q := QueryBody(token, dn);
    assert l[..|LoginPrefix|] == LoginPrefix;
    assert l[1] == 'a';
    assert q[..|QueryPrefix|] == QueryPrefix;
    assert q[1] == 'c';
  }

  /** Number of requests whose body starts with `prefix`. */
  function Count(rs: seq<Request>, prefix: string): nat {
    if rs == [] then 0
    else Count(rs[..|rs| - 1], prefix) + (if StartsWith(rs[|rs| - 1].body, prefix) then 1 else 0)
  }

  lemma CountSnoc(rs: seq<Request>, r: Request, prefix: string)
    ensures Count(rs + [r], prefix) == Count(rs, prefix) + (if StartsWith(r.body, prefix) then 1 else 0)
  {
    assert (rs + [r])[..|rs|] == rs;
  }

  // ---------------------------------------------------------------------
  // Response extractors: /outCookie="([\d\w\/-]+)"/ and /assignedToDn="([\d\w\/-]+)"/

  const CookiePattern := CapturePattern("outCookie=\"", DnChar, '"')
  const ProfilePattern := CapturePattern("assignedToDn=\"", DnChar, '"')

  /** The token a login response carries; nil (written to the file as "") when absent. */
  function OutCookie(response: string): string {
    Capture(response, CookiePattern).GetOr("")
  }

  function AssignedToDn(response: string): Option<string> {
    Capture(response, ProfilePattern)
  }

  lemma OutCookieSpec(response: string)
    ensures OutCookie(response) == "" <==> NoMatch(response, CookiePattern)
    ensures OutCookie(response) != "" ==>
        AllInClass(OutCookie(response), DnChar)
        && exists p :: LeftmostAt(response, p, CookiePattern, OutCookie(response))
  {
    var c := Capture(response, CookiePattern);
    CaptureIsLeftmost(response, CookiePattern, c.GetOr(""));
  }

  lemma AssignedToDnSpec(response: string)
    ensures AssignedToDn(response).None? <==> NoMatch(response, ProfilePattern)
    ensures AssignedToDn(response).Some? ==>
        var v := AssignedToDn(response).value;
        v != "" && AllInClass(v, DnChar) && exists p :: LeftmostAt(response, p, ProfilePattern, v)
  {
    var c := AssignedToDn(response);
    CaptureIsLeftmost(response, ProfilePattern, c.GetOr(""));
  }

  // ---------------------------------------------------------------------
  // callUcsApi, getToken, getServiceProfile

  /** One `callUcsApi(host, body)`: the response and the session with the call logged. */
  function Send(api: Api, s: Session, host: string, body: string): (string, Session) {
    var calls := s.calls + [Request(host, body)];
    (api(calls), s.(calls := calls))
  }

  /** `getToken`: the cached token if the token file exists, otherwise log in and cache the cookie. */
  function Token(cred: Credentials, api: Api, s: Session, host: string): (r: (string, Session))
    ensures r.1.tokenFile == Some(r.0)
    ensures s.tokenFile.Some? ==> r == (s.tokenFile.value, s)
    ensures s.tokenFile.None? ==>
        r.1.calls == s.calls + [Request(host, LoginBody(cred))] && r.0 == OutCookie(api(r.1.calls))
  {
    match s.tokenFile
    case Some(token) => (token, s)
    case None =>
      var (response, s1) := Send(api, s, host, LoginBody(cred));
      var token := OutCookie(response);
      (token, s1.(tokenFile := Some(token)))
  }

  /** Once a token is cached, asking again returns it and calls nothing. */
  lemma TokenIdempotent(cred: Credentials, api: Api, s: Session, host: string)
    ensures var (t, s1) := Token(cred, api, s, host);
            Token(cred, api, s1, host) == (t, s1)
  {
  }

  /** A freshly obtained token is made of `[\d\w\/-]` characters ("" when the response has no cookie). */
  lemma TokenShape(cred: Credentials, api: Api, s: Session, host: string)
    requires s.tokenFile.None?
    ensures var t := Token(cred, api, s, host).0;
            AllInClass(t, DnChar)
  {
    OutCookieSpec(api(s.calls + [Request(host, LoginBody(cred))]));
  }

  /** Number of `configResolveDn` queries `ServiceProfile` may still issue. */
  function Attempts(retries: int): nat {
    if retries > 5 then 0 else 6 - retries
  }

  /**
   * `getServiceProfile(host, dn, retries)`: query with the current token; on an
   * empty or absent `assignedToDn`, delete the token file and try again, until
   * `retries` exceeds 5.
   */
  function ServiceProfile(cred: Credentials, api: Api, s: Session, host: string, dn: string, retries: int)
    : (string, Session)
    decreases Attempts(retries)
  {
    if retries > 5 then ("", s)
    else
      var (token, s1) := Token(cred, api, s, host);
      var (response, s2) := Send(api, s1, host, QueryBody(token, dn));
      var profile := AssignedToDn(response).GetOr("");
      if profile == "" then ServiceProfile(cred, api, s2.(tokenFile := None), host, dn, retries + 1)
      else (profile, s2)
  }

  /** One attempt: an optional login, then the query, all to `host`. */
  lemma AttemptCalls(cred: Credentials, api: Api, s: Session, host: string, dn: string)
    ensures var (token, s1) := Token(cred, api, s, host);
            var s2 := Send(api, s1, host, QueryBody(token, dn)).1;
            && s2.calls == s1.calls + [Request(host, QueryBody(token, dn))]
            && s2.tokenFile == Some(token)
            && Count(s2.calls, QueryPrefix) == Count(s.calls, QueryPrefix) + 1
            && Count(s2.calls, LoginPrefix) == Count(s.calls, LoginPrefix) + (if s.tokenFile.None? then 1 else 0)
  {
    var (token, s1) := Token(cred, api, s, host);
    BodyKinds(cred, token, dn);
    if s.tokenFile.None? {
      CountSnoc(s.calls, Request(host, LoginBody(cred)), QueryPrefix);
      CountSnoc(s.calls, Request(host, LoginBody(cred)), LoginPrefix);
    }
    CountSnoc(s1.calls, Request(host, QueryBody(token, dn)), QueryPrefix);
    CountSnoc(s1.calls, Request(host, QueryBody(token, dn)), LoginPrefix);
  }

  /** The lookup only appends to the call log, and every call goes to `host`. */
  lemma {:induction false} ServiceProfileHistory(cred: Credentials, api: Api, s: Session, host: string, dn: string, retries: int)
    ensures var s' := ServiceProfile(cred, api, s, host, dn, retries).1;
            && |s.calls| <= |s'.calls| && s'.calls[..|s.calls|] == s.calls
            && forall k :: |s.calls| <= k < |s'.calls| ==> s'.calls[k].host == host
    decreases Attempts(retries)
  {
    if retries <= 5 {
      var (token, s1) := Token(cred, api, s, host);
      var (response, s2) := Send(api, s1, host, QueryBody(token, dn));
      if AssignedToDn(response).GetOr("") == "" {
        var s3 := s2.(tokenFile := None);
        ServiceProfileHistory(cred, api, s3, host, dn, retries + 1);
        var s' := ServiceProfile(cred, api, s3, host, dn, retries + 1).1;
        assert s'.calls[..|s.calls|] == s'.calls[..|s3.calls|][..|s.calls|];
      }
    }
  }

  /**
   * The retry is bounded: at most `Attempts(retries)` queries (five from the
   * first call, `retries == 1`) and one login per query; an empty result means
   * every attempt was used.
   */
  lemma {:induction false} ServiceProfileBounded(cred: Credentials, api: Api, s: Session, host: string, dn: string, retries: int)
    ensures var (p, s') := ServiceProfile(cred, api, s, host, dn, retries);
            && Count(s'.calls, QueryPrefix) <= Count(s.calls, QueryPrefix) + Attempts(retries)
            && |s'.calls| <= |s.calls| + 2 * Attempts(retries)
            && (p == "" ==> Count(s'.calls, QueryPrefix) == Count(s.calls, QueryPrefix) + Attempts(retries))
    decreases Attempts(retries)
  {
    if retries <= 5 {
      AttemptCalls(cred, api, s, host, dn);
      var (token, s1) := Token(cred, api, s, host);
      var (response, s2) := Send(api, s1, host, QueryBody(token, dn));
      if AssignedToDn(response).GetOr("") == "" {
        ServiceProfileBounded(cred, api, s2.(tokenFile := None), host, dn, retries + 1);
      }
    }
  }

  /**
   * The token file is deleted after each empty result, so every attempt but a
   * first one served from the cache logs in again; the file is left absent
   * exactly when the lookup gave up.
   */
  lemma {:induction false} ServiceProfileLogins(cred: Credentials, api: Api, s: Session, host: string, dn: string, retries: int)
    ensures var (p, s') := ServiceProfile(cred, api, s, host, dn, retries);
            if retries > 5 then s' == s && p == ""
            else
              && Count(s'.calls, LoginPrefix) + (if s.tokenFile.Some? then 1 else 0)
                 == Count(s.calls, LoginPrefix) + (Count(s'.calls, QueryPrefix) - Count(s.calls, QueryPrefix))
              && (s'.tokenFile.None? <==> p == "")
    decreases Attempts(retries)
  {
    if retries <= 5 {
      AttemptCalls(cred, api, s, host, dn);
      var (token, s1) := Token(cred, api, s, host);
      var (response, s2) := Send(api, s1, host, QueryBody(token, dn));
      if AssignedToDn(response).GetOr("") == "" {
        var s3 := s2.(tokenFile := None);
        ServiceProfileLogins(cred, api, s3, host, dn, retries + 1);
        ServiceProfileBounded(cred, api, s3, host, dn, retries + 1);
      }
    }
  }

  /**
   * The result is "" or the `assignedToDn` value of the last query's response,
   * a non-empty run of `[\d\w\/-]`.
   */
  lemma {:induction false} ServiceProfileResult(cred: Credentials, api: Api, s: Session, host: string, dn: string, retries: int)
    ensures var (p, s') := ServiceProfile(cred, api, s, host, dn, retries);
            p == "" || (AllInClass(p, DnChar)
                        && |s.calls| < |s'.calls|
                        && IsQueryFor(s'.calls[|s'.calls| - 1], dn)
                        && AssignedToDn(api(s'.calls)) == Some(p))
    decreases Attempts(retries)
  {
    if retries <= 5 {
      var (token, s1) := Token(cred, api, s, host);
      var (response, s2) := Send(api, s1, host, QueryBody(token, dn));
      AssignedToDnSpec(response);
      if AssignedToDn(response).GetOr("") == "" {
        ServiceProfileResult(cred, api, s2.(tokenFile := None), host, dn, retries + 1);
      } else {
        assert s2.calls[|s2.calls| - 1] == Request(host, QueryBody(token, dn));
      }
    }
  }

  /**
   * Every query before the last (and, when the result is "", every query) got
   * a response without an `assignedToDn` value.
   */
  lemma {:induction false} ServiceProfileEarlierEmpty(cred: Credentials, api: Api, s: Session, host: string, dn: string, retries: int)
    ensures var (p, s') := ServiceProfile(cred, api, s, host, dn, retries);
            forall k :: |s.calls| <= k < |s'.calls| && StartsWith(s'.calls[k].body, QueryPrefix)
                        && (p == "" || k < |s'.calls| - 1)
                        ==> AssignedToDn(api(s'.calls[..k + 1])).None?
    decreases Attempts(retries)
  {
    if retries <= 5 {
      var (token, s1) := Token(cred, api, s, host);
      var (response, s2) := Send(api, s1, host, QueryBody(token, dn));
      BodyKinds(cred, token, dn);
      if AssignedToDn(response).GetOr("") == "" {
        AssignedToDnSpec(response);
        var s3 := s2.(tokenFile := None);
        ServiceProfileEarlierEmpty(cred, api, s3, host, dn, retries + 1);
        ServiceProfileHistory(cred, api, s3, host, dn, retries + 1);
        var s' := ServiceProfile(cred, api, s3, host, dn, retries + 1).1;
        assert s'.calls[..|s2.calls|] == s2.calls;
        forall k | |s.calls| <= k < |s2.calls| && StartsWith(s'.calls[k].body, QueryPrefix)
          ensures AssignedToDn(api(s'.calls[..k + 1])).None?
        {
          assert s'.calls[k] == s2.calls[k];
          assert k == |s2.calls| - 1;
        }
      }
    }
  }

  /** The cookie a query carries: the cached token for a first attempt served from the file, else the cookie of the login just before it. */
  ghost predicate QueryCookieOk(cred: Credentials, api: Api, s: Session, calls: seq<Request>, host: string, dn: string, k: int)
    requires |s.calls| <= k < |calls|
  {
    if k == |s.calls| && s.tokenFile.Some? then calls[k].body == QueryBody(s.tokenFile.value, dn)
    else
      && |s.calls| < k
      && calls[k - 1] == Request(host, LoginBody(cred))
      && calls[k].body == QueryBody(OutCookie(api(calls[..k])), dn)
  }

  /**
   * Every query sends the token `getToken` has just returned: the cached one
   * on a first attempt served from the token file, and otherwise the
   * `outCookie` of the response to the `aaaLogin` call immediately before it.
   */
  lemma {:induction false} ServiceProfileQueryCookies(cred: Credentials, api: Api, s: Session, host: string, dn: string, retries: int)
    ensures var s' := ServiceProfile(cred, api, s, host, dn, retries).1;
            forall k :: |s.calls| <= k < |s'.calls| && StartsWith(s'.calls[k].body, QueryPrefix)
                        ==> QueryCookieOk(cred, api, s, s'.calls, host, dn, k)
    decreases Attempts(retries)
  {
    if retries <= 5 {
      var (token, s1) := Token(cred, api, s, host);
      var (response, s2) := Send(api, s1, host, QueryBody(token, dn));
      BodyKinds(cred, token, dn);
      var s' := ServiceProfile(cred, api, s, host, dn, retries).1;
      if AssignedToDn(response).GetOr("") == "" {
        var s3 := s2.(tokenFile := None);
        ServiceProfileQueryCookies(cred, api, s3, host, dn, retries + 1);
        ServiceProfileHistory(cred, api, s3, host, dn, retries + 1);
        assert s'.calls[..|s2.calls|] == s2.calls;
        forall k | |s.calls| <= k < |s'.calls| && StartsWith(s'.calls[k].body, QueryPrefix)
          ensures QueryCookieOk(cred, api, s, s'.calls, host, dn, k)
        {
          if k < |s2.calls| {
            assert s'.calls[k] == s2.calls[k];
            assert k == |s2.calls| - 1;
            QueryCookieOfAttempt(cred, api, s, host, dn, s'.calls);
          } else {
            assert QueryCookieOk(cred, api, s3, s'.calls, host, dn, k);
          }
        }
      } else {
        forall k | |s.calls| <= k < |s'.calls| && StartsWith(s'.calls[k].body, QueryPrefix)
          ensures QueryCookieOk(cred, api, s, s'.calls, host, dn, k)
        {
          assert k == |s2.calls| - 1;
          QueryCookieOfAttempt(cred, api, s, host, dn, s'.calls);
        }
      }
    }
  }

  /** The query of one attempt, seen in any history that extends the attempt's calls. */
  lemma QueryCookieOfAttempt(cred: Credentials, api: Api, s: Session, host: string, dn: string, calls: seq<Request>)
    requires var (token, s1) := Token(cred, api, s, host);
             var s2 := Send(api, s1, host, QueryBody(token, dn)).1;
             |s2.calls| <= |calls| && calls[..|s2.calls|] == s2.calls
    ensures var (token, s1) := Token(cred, api, s, host);
            var s2 := Send(api, s1, host, QueryBody(token, dn)).1;
            QueryCookieOk(cred, api, s, calls, host, dn, |s2.calls| - 1)
  {
    var (token, s1) := Token(cred, api, s, host);
    var s2 := Send(api, s1, host, QueryBody(token, dn)).1;
    var k := |s2.calls| - 1;
    assert calls[k] == s2.calls[k];
    if s.tokenFile.None? {
      assert calls[k - 1] == s2.calls[k - 1];
      assert calls[..k] == s2.calls[..k] == s1.calls;
    }
  }

  /** Every login of the lookup is immediately followed by a query. */
  lemma {:induction false} ServiceProfileLoginOrder(cred: Credentials, api: Api, s: Session, host: string, dn: string, retries: int)
    ensures var s' := ServiceProfile(cred, api, s, host, dn, retries).1;
            forall k :: |s.calls| <= k < |s'.calls| && StartsWith(s'.calls[k].body, LoginPrefix)
                        ==> s'.calls[k] == Request(host, LoginBody(cred))
                            && k + 1 < |s'.calls| && StartsWith(s'.calls[k + 1].body, QueryPrefix)
    decreases Attempts(retries)
  {
    if retries <= 5 {
      var (token, s1) := Token(cred, api, s, host);
      var (response, s2) := Send(api, s1, host, QueryBody(token, dn));
      BodyKinds(cred, token, dn);
      if AssignedToDn(response).GetOr("") == "" {
        var s3 := s2.(tokenFile := None);
        ServiceProfileLoginOrder(cred, api, s3, host, dn, retries + 1);
        ServiceProfileHistory(cred, api, s3, host, dn, retries + 1);
        var s' := ServiceProfile(cred, api, s3, host, dn, retries + 1).1;
        assert s'.calls[..|s2.calls|] == s2.calls;
        forall k | |s.calls| <= k < |s2.calls| && StartsWith(s'.calls[k].body, LoginPrefix)
          ensures s'.calls[k] == Request(host, LoginBody(cred))
                  && k + 1 < |s'.calls| && StartsWith(s'.calls[k + 1].body, QueryPrefix)
        {
          assert s'.calls[k] == s2.calls[k];
          assert s'.calls[k + 1] == s2.calls[k + 1];
        }
      }
    }
  }
}
