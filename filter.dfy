/**
 * `LaravelMobileFacebookAppFilter` (src/filter.php): the before-routing
 * filter that sends a desktop visitor to the Facebook tab app, sends a
 * visitor who arrives inside the tab app on to the deep link carried in the
 * signed request's `app_data`, and otherwise lets the request through with
 * two fixed headers.
 *
 * The collaborators the PHP code reaches through facades and superglobals
 * are explicit here: the answers of Mobile_Detect and of the Facebook
 * library travel in the `Request`, the session store is the `Session`
 * object, and the redirect or headers are the returned `Outcome`.
 */
module Filter {
  import opened Wrappers
  import opened PhpStrings
  import opened UrlCodec
  import opened Query

  /** The decoded signed request: `issued_at` and the optional `app_data`. */
  datatype SignedRequest = SignedRequest(issuedAt: int, appData: Option<Bytes>)

  /**
   * Everything one invocation reads: the parsed query (`$_GET`, and the
   * query of `REQUEST_URI`; an absent query is the empty list), the path of
   * `REQUEST_URI`, the `User-Agent` header, the verdict of
   * `Mobile_Detect::isMobile()`, `Facebook::getSignedRequest()` (None for
   * null or an empty array) and `Facebook::getTabAppUrl()`.
   */
  datatype Request = Request(
    path: Bytes,
    query: seq<Param>,
    userAgent: Bytes,
    isMobile: bool,
    signedRequest: Option<SignedRequest>,
    tabAppUrl: Bytes)

  /**
   * The two session keys the filter owns. `done_facebook_redirect` is only
   * ever put as true or forgotten, so a missing key is false;
   * `done_app_data_redirect` holds the `issued_at` it was satisfied for.
   */
  datatype SessionState = SessionState(doneFacebookRedirect: bool, doneAppDataRedirect: Option<int>)

  /** A response header; its text is fixed, so it is kept as a plain string. */
  datatype Header = Header(name: string, value: string)

  /** The three ways a request can end. */
  datatype Outcome =
    | FacebookRedirect(url: Bytes)
    | AppDataRedirect(uri: Bytes)
    | PassThrough(headers: seq<Header>)

  const SharedKey: Bytes := "shared"
  const FacebookBotSignature: Bytes := "facebookexternalhit"
  const AppDataParameter: Bytes := "&app_data=uri,"

  /** The headers `sendP3PHeaders` emits, in order. */
  const P3PHeaders: seq<Header> := [
    Header("X-Frame-Options", "GOFORIT"),
    Header("P3P", "CP=\"IDC DSP COR ADM DEVi TAIi PSA PSD IVAi IVDi CONi HIS OUR IND CNT\"")
  ]

  /** `wasUrlShared`: the query has a `shared` key, whatever its value. */
  function WasUrlShared(req: Request): (r: bool)
    ensures r <==> exists p :: p in req.query && p.key == SharedKey
    ensures r <==> Without(req.query, SharedKey) != req.query
  {
    WithoutChanges(req.query, SharedKey);
    HasKey(req.query, SharedKey)
  }

  /** `isRequestFromFacebookBot`: `stripos($ua, 'facebookexternalhit') !== false`. */
  function IsRequestFromFacebookBot(userAgent: Bytes): (r: bool)
    ensures r <==> exists i: nat :: MatchesAt(userAgent, FacebookBotSignature, i)
  {
    Stripos(userAgent, FacebookBotSignature).Some?
  }

  /**
   * `shouldRedirectToFacebook`: redirect exactly when the request is not
   * from a mobile, the user agent nowhere contains the crawler's name in
   * any letter case, and the Facebook redirect has not been done.
   */
  function ShouldRedirectToFacebook(req: Request, doneFacebookRedirect: bool): (r: bool)
    ensures r <==>
      && !req.isMobile
      && (forall i: nat :: !MatchesAt(req.userAgent, FacebookBotSignature, i))
      && !doneFacebookRedirect
  {
    if req.isMobile then false
    else if IsRequestFromFacebookBot(req.userAgent) then false
    else if doneFacebookRedirect then false
    else true
  }

  /** The URL handed to Facebook: the path, then `?` and the query without `shared` if anything is left. */
  function RedirectUrl(path: Bytes, query: seq<Param>): (r: Bytes)
    ensures path <= r
    ensures |r| == |path| <==> Without(query, SharedKey) == []
    ensures |r| > |path| ==> r[|path|] == '?' && r[|path| + 1..] == BuildQuery(Without(query, SharedKey))
  {
    var rest := Without(query, SharedKey);
    if rest == [] then path else path + "?" + BuildQuery(rest)
  }

  /** The Facebook redirect target: the tab-app URL with `&app_data=uri,` and the encoded URL appended. */
  function FacebookRedirectTarget(tabAppUrl: Bytes, path: Bytes, query: seq<Param>): (r: Bytes)
    ensures tabAppUrl + AppDataParameter <= r
    ensures UrlDecode(r[|tabAppUrl + AppDataParameter|..]) == RedirectUrl(path, query)
  {
    var head := tabAppUrl + AppDataParameter;
    var url := RedirectUrl(path, query);
    DecodeEncode(url);
    assert (head + UrlEncode(url))[|head|..] == UrlEncode(url);
    head + UrlEncode(url)
  }

  /**
   * PHP's loose `Session::get('done_app_data_redirect') == $issued_at`:
   * an integer against null compares as booleans, so a missing value
   * equals an `issued_at` of 0 and nothing else.
   */
  function IssuedAtMatches(stored: Option<int>, issuedAt: int): (r: bool)
    ensures stored.Some? ==> (r <==> stored.value == issuedAt)
    ensures stored.None? ==> (r <==> issuedAt == 0)
  {
    match stored
    case None => issuedAt == 0
    case Some(t) => t == issuedAt
  }

  /** `issued_at` of the signed request, or null when there is none. */
  function IssuedAt(signedRequest: Option<SignedRequest>): Option<int>
  {
    if signedRequest.Some? then Some(signedRequest.value.issuedAt) else None
  }

  /**
   * `newAppDataUri`: the deep link in `app_data`, unless there is no signed
   * request, this `issued_at` was already handled, `app_data` is missing,
   * or `app_data` does not start with `uri,`.
   */
  function NewAppDataUri(signedRequest: Option<SignedRequest>, doneAppDataRedirect: Option<int>): (r: Option<Bytes>)
    ensures r.Some? <==>
      && signedRequest.Some?
      && !IssuedAtMatches(doneAppDataRedirect, signedRequest.value.issuedAt)
      && signedRequest.value.appData.Some?
      && MatchUriPattern(signedRequest.value.appData.value).Some?
    ensures r.Some? ==> '\n' !in r.value && UriPrefix + r.value <= signedRequest.value.appData.value
    ensures r.Some? && |UriPrefix| + |r.value| < |signedRequest.value.appData.value| ==>
      signedRequest.value.appData.value[|UriPrefix| + |r.value|] == '\n'
  {
    if signedRequest.None? then None
    else if IssuedAtMatches(doneAppDataRedirect, signedRequest.value.issuedAt) then None
    else if signedRequest.value.appData.None? then None
    else MatchUriPattern(signedRequest.value.appData.value)
  }

  /** The session after the first step: `done_facebook_redirect` forgotten for a shared URL. */
  function AfterSharedCheck(s: SessionState, req: Request): SessionState
  {
    if WasUrlShared(req) then s.(doneFacebookRedirect := false) else s
  }

  /**
   * One invocation of `filter()` on a session: the outcome and the new
   * session. The Facebook flag ends up set exactly when this request was
   * sent to Facebook or the flag was set and the link was not shared; only
   * a deep-link redirect changes the deep-link record, and it goes to a
   * truthy, newline-free link.
   */
  function Step(s: SessionState, req: Request): (r: (Outcome, SessionState))
    ensures r.1.doneFacebookRedirect <==> r.0.FacebookRedirect? || (s.doneFacebookRedirect && !WasUrlShared(req))
    ensures r.1.doneAppDataRedirect != s.doneAppDataRedirect ==> r.0.AppDataRedirect?
    ensures r.0.AppDataRedirect? ==> Truthy(r.0.uri) && '\n' !in r.0.uri
  {
    var s1 := AfterSharedCheck(s, req);
    if ShouldRedirectToFacebook(req, s1.doneFacebookRedirect) then
      (FacebookRedirect(FacebookRedirectTarget(req.tabAppUrl, req.path, req.query)),
       s1.(doneFacebookRedirect := true))
    else
      var appDataUri := NewAppDataUri(req.signedRequest, s1.doneAppDataRedirect);
      if appDataUri.Some? && Truthy(appDataUri.value) then
        (AppDataRedirect(appDataUri.value), s1.(doneAppDataRedirect := IssuedAt(req.signedRequest)))
      else
        (PassThrough(P3PHeaders), s1)
  }

  /** The PHP session store, reduced to the two keys the filter uses. */
  class Session {
    var doneFacebookRedirect: bool
    var doneAppDataRedirect: Option<int>

    constructor ()
      ensures State() == SessionState(false, None)
    {
      doneFacebookRedirect := false;
      doneAppDataRedirect := None;
    }

    function State(): SessionState
      reads this
    {
      SessionState(doneFacebookRedirect, doneAppDataRedirect)
    }
  }

  class LaravelMobileFacebookAppFilter {
    /** Set from `Facebook::getSignedRequest()` by every call of `Filter`. */
    var signedRequest: Option<SignedRequest>
    const session: Session

    constructor (session: Session)
      ensures this.session == session && signedRequest == None
    {
      this.session := session;
      signedRequest := None;
    }

    /** `filter()`: one request, as the specification function `Step` describes it. */
    method Filter(req: Request) returns (o: Outcome)
      modifies this, session
      ensures signedRequest == req.signedRequest
      ensures (o, session.State()) == Step(old(session.State()), req)
    {
      if WasUrlShared(req) {
        session.doneFacebookRedirect := false;
      }
      signedRequest := req.signedRequest;
      if ShouldRedirectToFacebook(req, session.doneFacebookRedirect) {
        o := DoFacebookRedirect(req);
        return;
      }
      var appDataUri := NewAppDataUri(signedRequest, session.doneAppDataRedirect);
      if appDataUri.Some? && Truthy(appDataUri.value) {
        o := DoAppDataUriRedirect(appDataUri.value);
        return;
      }
      o := PassThrough(P3PHeaders);
    }

    /** `doFacebookRedirect()`: builds the tab-app target and marks the redirect as done. */
    method DoFacebookRedirect(req: Request) returns (o: Outcome)
      modifies session
      ensures o == FacebookRedirect(FacebookRedirectTarget(req.tabAppUrl, req.path, req.query))
      ensures session.State() == old(session.State()).(doneFacebookRedirect := true)
    {
      var queryArr := req.query;
      if HasKey(queryArr, SharedKey) {
        queryArr := Without(queryArr, SharedKey);
      } else {
        WithoutAbsent(queryArr, SharedKey);
      }
      var url := req.path;
      if queryArr != [] {
        url := url + "?" + BuildQuery(queryArr);
      }
      var tabAppUrl := req.tabAppUrl;
      tabAppUrl := tabAppUrl + AppDataParameter + UrlEncode(url);
      session.doneFacebookRedirect := true;
      o := FacebookRedirect(tabAppUrl);
    }

    /** `doAppDataUriRedirect($appDataUri)`: records this `issued_at` and redirects to the deep link. */
    method DoAppDataUriRedirect(appDataUri: Bytes) returns (o: Outcome)
      modifies session
      ensures o == AppDataRedirect(appDataUri)
      ensures session.State() == old(session.State()).(doneAppDataRedirect := IssuedAt(signedRequest))
    {
      session.doneAppDataRedirect := IssuedAt(signedRequest);
      o := AppDataRedirect(appDataUri);
    }
  }

  /**
   * The URL embedded in the Facebook redirect reads back, once decoded, as
   * the original path and the original query without `shared`, the other
   * pairs in their original order.
   */
  lemma EmbeddedUrlRoundTrip(tabAppUrl: Bytes, path: Bytes, query: seq<Param>)
    requires '?' !in path
    requires NonEmptyKeys(query)
    ensures var target := FacebookRedirectTarget(tabAppUrl, path, query);
            var head := tabAppUrl + AppDataParameter;
            && head <= target
            && ReadRequestTarget(UrlDecode(target[|head|..])) == (path, Without(query, SharedKey))
            && ('?' in UrlDecode(target[|head|..]) <==> Without(query, SharedKey) != [])
            && (Without(query, SharedKey) == [] ==> UrlDecode(target[|head|..]) == path)
  {
    var head := tabAppUrl + AppDataParameter;
    var url := RedirectUrl(path, query);
    var target := FacebookRedirectTarget(tabAppUrl, path, query);
    assert target == head + UrlEncode(url);
    assert target[|head|..] == UrlEncode(url);
    DecodeEncode(url);
    var rest := Without(query, SharedKey);
    if rest == [] {
      IndexOfAbsent(path, '?');
      assert path[..|path|] == path;
    } else {
      var built := BuildQuery(rest);
      assert url == path + ['?'] + built;
      assert url[|path|] == '?';
      IndexOfSplit(path, '?', built);
      assert url[..|path|] == path;
      assert url[|path| + 1..] == built;
      assert NonEmptyKeys(rest) by {
        forall i | 0 <= i < |rest| ensures rest[i].key != [] {
          assert rest[i] in rest;
          WithoutMembers(query, SharedKey, rest[i]);
        }
      }
      ParseBuildQuery(rest);
    }
  }

  /**
   * A shared link opened on a desktop browser other than the crawler is
   * always sent to Facebook, even when the session says the Facebook
   * redirect was done before; the deep-link record is left as it was.
   */
  lemma SharedLinkRedirectsToFacebook(s: SessionState, req: Request)
    requires WasUrlShared(req) && !req.isMobile && !IsRequestFromFacebookBot(req.userAgent)
    ensures Step(s, req) ==
      (FacebookRedirect(FacebookRedirectTarget(req.tabAppUrl, req.path, req.query)),
       SessionState(true, s.doneAppDataRedirect))
  {
  }

  /**
   * The Facebook redirect happens exactly when `shouldRedirectToFacebook`
   * holds after the shared-link reset; it sets `done_facebook_redirect`,
   * keeps `done_app_data_redirect`, and nothing of the later steps runs.
   */
  lemma FacebookRedirectEffect(s: SessionState, req: Request)
    ensures Step(s, req).0.FacebookRedirect? <==>
      ShouldRedirectToFacebook(req, AfterSharedCheck(s, req).doneFacebookRedirect)
    ensures Step(s, req).0.FacebookRedirect? ==>
      Step(s, req) ==
        (FacebookRedirect(FacebookRedirectTarget(req.tabAppUrl, req.path, req.query)),
         SessionState(true, s.doneAppDataRedirect))
  {
  }

  /** Once the Facebook redirect is done, a request without `shared` never redirects there again. */
  lemma NoFacebookRedirectWhenDone(s: SessionState, req: Request)
    requires s.doneFacebookRedirect && !WasUrlShared(req)
    ensures !Step(s, req).0.FacebookRedirect?
    ensures Step(s, req).1.doneFacebookRedirect
  {
  }

  /**
   * A deep-link redirect needs a signed request whose `issued_at` is not
   * the recorded one; it records this `issued_at` and leaves
   * `done_facebook_redirect` as the first step left it.
   */
  lemma DeepLinkRecordsIssuedAt(s: SessionState, req: Request)
    requires Step(s, req).0.AppDataRedirect?
    ensures req.signedRequest.Some?
    ensures !IssuedAtMatches(s.doneAppDataRedirect, req.signedRequest.value.issuedAt)
    ensures Step(s, req).1 ==
      SessionState(AfterSharedCheck(s, req).doneFacebookRedirect, Some(req.signedRequest.value.issuedAt))
  {
  }

  /** A deep-link redirect goes to the truthy URI that `newAppDataUri` found, after no Facebook redirect. */
  lemma DeepLinkTarget(s: SessionState, req: Request)
    requires Step(s, req).0.AppDataRedirect?
    ensures !ShouldRedirectToFacebook(req, AfterSharedCheck(s, req).doneFacebookRedirect)
    ensures NewAppDataUri(req.signedRequest, s.doneAppDataRedirect) == Some(Step(s, req).0.uri)
    ensures Truthy(Step(s, req).0.uri)
  {
  }

  /**
   * The request passes through, with the two headers, exactly when neither
   * redirect fires; then the only change to the session is the shared-link
   * reset.
   */
  lemma PassThroughIffNoRedirect(s: SessionState, req: Request)
    ensures Step(s, req).0.PassThrough? <==>
      && !ShouldRedirectToFacebook(req, AfterSharedCheck(s, req).doneFacebookRedirect)
      && !(NewAppDataUri(req.signedRequest, s.doneAppDataRedirect).Some? &&
           Truthy(NewAppDataUri(req.signedRequest, s.doneAppDataRedirect).value))
    ensures Step(s, req).0.PassThrough? ==>
      Step(s, req) == (PassThrough(P3PHeaders), AfterSharedCheck(s, req))
  {
  }

  /** Only a deep-link redirect changes `done_app_data_redirect`. */
  lemma AppDataRecordKept(s: SessionState, req: Request)
    requires !Step(s, req).0.AppDataRedirect?
    ensures Step(s, req).1.doneAppDataRedirect == s.doneAppDataRedirect
  {
  }

  /**
   * An `issued_at` equal, under loose `==`, to the recorded one never gives a
   * deep-link redirect; with nothing recorded, that is an `issued_at` of 0.
   */
  lemma SameIssuedAtNoDeepLink(s: SessionState, req: Request)
    requires req.signedRequest.Some?
    requires IssuedAtMatches(s.doneAppDataRedirect, req.signedRequest.value.issuedAt)
    ensures !Step(s, req).0.AppDataRedirect?
  {
  }

  /**
   * A signed request with an `issued_at` other than the recorded one and
   * `app_data` = "uri," + u redirects to u (when the Facebook redirect does
   * not come first and u is a truthy, newline-free text).
   */
  lemma NewIssuedAtDeepLinks(s: SessionState, req: Request, u: Bytes)
    requires !ShouldRedirectToFacebook(req, AfterSharedCheck(s, req).doneFacebookRedirect)
    requires req.signedRequest.Some? && req.signedRequest.value.appData == Some(UriPrefix + u)
    requires !IssuedAtMatches(s.doneAppDataRedirect, req.signedRequest.value.issuedAt)
    requires '\n' !in u && Truthy(u)
    ensures Step(s, req) ==
      (AppDataRedirect(u),
       AfterSharedCheck(s, req).(doneAppDataRedirect := Some(req.signedRequest.value.issuedAt)))
  {
    MatchUriPatternOf(u);
  }

  /**
   * A desktop browser, not the crawler, opening a shared link to a plain page
   * on a fresh session (for instance `/landing?shared=true`) is sent to
   * `<tabAppUrl>&app_data=uri,%2Flanding`.
   */
  lemma SharedPageScenario(req: Request, page: Bytes)
    requires forall i :: 0 <= i < |page| ==> IsUnreserved(page[i])
    requires req.path == "/" + page && req.query == [Param("shared", "true")]
    requires !req.isMobile && !IsRequestFromFacebookBot(req.userAgent)
    ensures Step(SessionState(false, None), req)
         == (FacebookRedirect(req.tabAppUrl + "&app_data=uri,%2F" + page), SessionState(true, None))
  {
    assert WasUrlShared(req) by {
      assert req.query[0].key == SharedKey;
    }
    SharedPageTarget(req.tabAppUrl, page);
  }

  lemma SharedPageTarget(tabAppUrl: Bytes, page: Bytes)
    requires forall i :: 0 <= i < |page| ==> IsUnreserved(page[i])
    ensures FacebookRedirectTarget(tabAppUrl, "/" + page, [Param("shared", "true")])
         == tabAppUrl + "&app_data=uri,%2F" + page
  {
    var path := "/" + page;
    OnlySharedKeepsPath(path, "true");
    EncodePlainPath(page);
    assert AppDataParameter + "%2F" == "&app_data=uri,%2F";
  }

  /** A query holding only `shared` leaves the bare path. */
  lemma OnlySharedKeepsPath(path: Bytes, v: Bytes)
    ensures RedirectUrl(path, [Param(SharedKey, v)]) == path
  {
    WithoutOwnEntry(SharedKey, v);
  }

  /**
   * A `shared` parameter followed by one plain `key=value` pair (such as
   * `/page?shared=true&foo=bar`) is handed to Facebook with only that pair
   * (`/page?foo=bar`).
   */
  lemma SharedParameterRemoved(path: Bytes, v: Bytes, k: Bytes, w: Bytes)
    requires k != SharedKey
    requires forall i :: 0 <= i < |k| ==> IsUnreserved(k[i])
    requires forall i :: 0 <= i < |w| ==> IsUnreserved(w[i])
    ensures RedirectUrl(path, [Param(SharedKey, v), Param(k, w)]) == path + "?" + k + "=" + w
  {
    var shared := [Param(SharedKey, v)];
    var pair := [Param(k, w)];
    assert [Param(SharedKey, v), Param(k, w)] == shared + pair;
    WithoutConcat(shared, pair, SharedKey);
    WithoutOwnEntry(SharedKey, v);
    assert pair[1..] == [];
    assert Without(pair, SharedKey) == pair;
    EncodeUnreserved(k);
    EncodeUnreserved(w);
    assert BuildQuery(pair) == k + "=" + w;
  }

  /**
   * Back inside the tab app after the Facebook redirect, a signed request
   * with `issued_at` 1000 and `app_data` "uri,/dashboard" is followed to
   * `/dashboard`, and 1000 is recorded.
   */
  lemma DashboardScenario(req: Request, u: Bytes)
    requires u == "/dashboard"
    requires !WasUrlShared(req)
    requires req.signedRequest == Some(SignedRequest(1000, Some(UriPrefix + u)))
    ensures Step(SessionState(true, None), req) == (AppDataRedirect(u), SessionState(true, Some(1000)))
  {
    assert '\n' !in u;
    NewIssuedAtDeepLinks(SessionState(true, None), req, u);
  }

  /**
   * A mobile browser (such as "Mobile Safari") without `shared` or a signed
   * request passes through with the headers, on any session, which it leaves
   * unchanged.
   */
  lemma MobileScenario(s: SessionState, req: Request)
    requires req.isMobile && !WasUrlShared(req) && req.signedRequest.None?
    ensures Step(s, req) == (PassThrough(P3PHeaders), s)
  {
  }
}
