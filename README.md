# Laravel Mobile Facebook App filter, in Dafny

This project models `LaravelMobileFacebookAppFilter`, the before-routing
filter of the Laravel package `fbf/laravel-mobile-facebook-app`, and proves
what it promises. The filter lets a Facebook tab app also work as an ordinary
mobile site. Each request ends in one of three ways:

- a desktop visitor is redirected to the Facebook tab-app URL, with the page
  they asked for carried along as `app_data=uri,<url-encoded path and query>`;
- a visitor arriving inside the tab app is redirected to that deep link,
  which comes back in the signed request's `app_data`;
- otherwise the request passes through, with the headers `X-Frame-Options`
  and `P3P`.

Two session keys carry state from one request to the next:
`done_facebook_redirect` and `done_app_data_redirect`. The second one holds
the `issued_at` of the signed request it was used for.

Layout, one module per file:

- `wrappers.dfy`: `Option`.
- `php_strings.dfy`: PHP byte strings (`Byte` is a character below 256).
  It models `stripos` with ASCII case folding, `preg_match('/^uri,(.*)/')`
  and the truthiness of a string.
- `url_codec.dfy`: `urlencode`, byte by byte. `urldecode` is its inverse,
  and a lemma proves the round trip.
- `query.dfy`: the query as an ordered list of key/value pairs. It models
  `unset` of one key and `http_build_query`. It also has a reader, a subset
  of `parse_url` plus `parse_str`, that takes a built query back apart.
- `filter.dfy`: the request, session and outcome datatypes, and the guard
  functions. `Step` is the specification of one `filter()` call. The PHP
  object becomes the classes `Session` and `LaravelMobileFacebookAppFilter`.
  Their methods `Filter`, `DoFacebookRedirect` and `DoAppDataUriRedirect`
  update the session in place, and each is proved equal to `Step` or to its
  part of `Step`. The file also holds the one-request properties and the
  package's usage scenarios.
- `filter_runs.dfy`: the session over a sequence of requests. `IsRun` says
  that a list of sessions and outcomes is what `filter()` produces, request
  after request; `Run` computes it. The file holds the properties that span
  several requests.

The filter's collaborators become explicit inputs. These are the
`isMobile()` verdict, the decoded signed request, the tab-app URL, the
`User-Agent` header, and the request's path and parsed query. All of them
are fields of `Request`.

Points where the model follows the letter of the code:

- The code's comments speak of the parameter `shared=true`
  (src/filter.php:26, src/filter.php:55). The test is for any `shared` key
  in the query, whatever its value (`array_key_exists`, src/filter.php:61).
- The deep link is the text after `uri,` only up to the first line feed,
  because `.` does not match a newline. `filter()` tests the result for PHP
  truthiness (src/filter.php:46), so an empty link or the link `0` does not
  redirect and the request passes through.
- The comparison of `done_app_data_redirect` with `issued_at` is PHP's loose
  `==` (src/filter.php:161). A missing stored value compares equal to an
  `issued_at` of 0. `IssuedAtMatches` models this exactly.
- The code sends the P3P header as `P3P:CP="…"`, with no space after the
  colon. The name and the value are the same either way.
- Only the last deep-link `issued_at` is kept (src/filter.php:194). Two
  deep-link redirects with none between them never share an `issued_at`,
  but an older signed request seen again after another deep link redirects
  once more (`FilterRuns.DeepLinkReplay`).

## Model

| member | source | states |
|---|---|---|
| `PhpStrings.Stripos` | src/filter.php:110 | Returns the offset of the first case-insensitive occurrence of the needle, with no occurrence before it. Returns None exactly when the needle occurs at no offset. |
| `PhpStrings.MatchUriPattern` | src/filter.php:170-175 | Matches exactly when the subject starts with `uri,`. The captured text follows the prefix, holds no line feed, and ends at the subject's end or at a line feed. |
| `PhpStrings.Truthy` | src/filter.php:46 | A string is truthy in PHP exactly when it has two or more bytes, or one byte other than `0`. So `""` and `"0"` are false. |
| `PhpStrings.MatchUriPatternOf` | src/filter.php:170-175 | For `app_data` equal to `uri,` followed by a newline-free `u`, the capture is exactly `u`. |
| `UrlCodec.UrlEncode` | src/filter.php:138 | `urlencode` emits only letters, digits, `-_.`, `+` and `%`, so never `&`, `=` or `?`. |
| `UrlCodec.DecodeEncode` | src/filter.php:138 | Url-decoding the encoded URL gives back the URL, byte for byte. |
| `UrlCodec.EncodeInjective` | src/filter.php:138 | Two different URLs never have the same encoding. |
| `UrlCodec.EncodeConcat` | src/filter.php:138 | `urlencode` works byte by byte: the encoding of a concatenation is the concatenation of the encodings. |
| `UrlCodec.EncodeUnreserved` | src/filter.php:138 | Text made only of letters, digits and `-_.` is its own encoding. |
| `UrlCodec.EncodeSlash` | src/filter.php:138 | The path separator `/` is encoded as `%2F`. |
| `UrlCodec.EncodePlainPath` | src/filter.php:138 | A path `/` + a plain segment is encoded as `%2F` followed by the segment unchanged. |
| `Query.Without` | src/filter.php:125-128 | After `unset`, no pair with the removed key is left, and the query is no longer than before. |
| `Query.WithoutMembers` | src/filter.php:125-128 | After `unset`, a pair is in the query exactly when it was there before and its key is not the removed one. |
| `Query.WithoutConcat` | src/filter.php:127 | Removing a key works piece by piece on a concatenation, so the remaining pairs keep their order. |
| `Query.WithoutChanges` | src/filter.php:125-128 | `unset` changes the query exactly when the key is present. |
| `Query.WithoutShrinks` | src/filter.php:125-128 | When the key is present, `unset` makes the query strictly shorter. |
| `Query.WithoutAbsent` | src/filter.php:125-128 | When the key is absent, the query is unchanged, so the `array_key_exists` guard does not change the result. |
| `Query.UnsetEntry` | src/filter.php:127 | With distinct keys, `unset` removes exactly the one entry and keeps the pairs before and after it, in order. |
| `Query.BuildQuery` | src/filter.php:133 | The built query is empty exactly when there are no pairs. |
| `Query.ParseBuildQuery` | src/filter.php:124-133 | Parsing a query built by `http_build_query` gives back the same pairs in the same order, when no key is empty. |
| `Filter.WasUrlShared` | src/filter.php:59-62 | True exactly when some query parameter has the key `shared`, whatever its value. Equivalently, unsetting `shared` would change the query. |
| `Filter.IsRequestFromFacebookBot` | src/filter.php:108-111 | True exactly when `facebookexternalhit` occurs in the user agent at some offset, in any ASCII letter case. |
| `Filter.RedirectUrl` | src/filter.php:121-134 | The URL handed to Facebook starts with the path. It is longer than the path exactly when a parameter other than `shared` remains, and then the next byte is `?`, followed by `http_build_query` of the remaining parameters. |
| `Filter.FacebookRedirectTarget` | src/filter.php:136-138 | The target starts with the tab-app URL and `&app_data=uri,`. The rest decodes back to the redirect URL. |
| `Filter.IssuedAtMatches` | src/filter.php:161 | PHP's loose `==` between the stored value and `issued_at`. A stored integer matches only an equal `issued_at`. A missing value, null, matches only an `issued_at` of 0. |
| `Filter.Step` | src/filter.php:24-52 | One `filter()` call. Afterwards `done_facebook_redirect` is set exactly when this request went to Facebook, or when the flag was set and the link was not shared. Only a deep-link redirect changes `done_app_data_redirect`. A deep-link redirect goes to a truthy, newline-free link. |
| `Filter.ShouldRedirectToFacebook` | src/filter.php:69-90 | True exactly when the request is not mobile, the user agent contains `facebookexternalhit` in no letter case at no offset, and `done_facebook_redirect` is unset. |
| `Filter.NewAppDataUri` | src/filter.php:154-176 | Returns a link exactly when all four hold: there is a signed request, its `issued_at` is not the recorded one (under loose `==`), `app_data` is set, and `app_data` matches `^uri,`. The link is newline-free, `uri,` + link is a prefix of `app_data`, and the link runs to the end of `app_data` or to its first line feed. |
| `Filter.LaravelMobileFacebookAppFilter.Filter` | src/filter.php:24-52 | One call stores the request's signed request. Its outcome and the new session are those of `Step` applied to the old session. |
| `Filter.LaravelMobileFacebookAppFilter.DoFacebookRedirect` | src/filter.php:118-146 | Redirects to the tab-app URL + `&app_data=uri,` + the encoded path[?query without shared]. Sets `done_facebook_redirect` and changes nothing else. |
| `Filter.LaravelMobileFacebookAppFilter.DoAppDataUriRedirect` | src/filter.php:185-197 | Redirects to the given link, records the signed request's `issued_at`, and changes nothing else. `filter()` calls it only with a signed request. A direct call without one records null here (see "## Left out"). |
| `Filter.EmbeddedUrlRoundTrip` | src/filter.php:121-138 | The redirect target starts with the tab-app URL and `&app_data=uri,`. The rest, once decoded and split at `?`, gives the original path and the original query without `shared`, in order. The decoded URL contains `?` exactly when a parameter other than `shared` remains. When none remains, the decoded URL is the bare path. |
| `Filter.SharedLinkRedirectsToFacebook` | src/filter.php:29-41 | A shared link from a non-mobile agent other than the crawler always redirects to Facebook, whatever the session held. It sets the flag and keeps the deep-link record. |
| `Filter.FacebookRedirectEffect` | src/filter.php:38-41 | The Facebook redirect happens exactly when `shouldRedirectToFacebook` holds after the shared-link reset. The session becomes (true, old deep-link record), and nothing later in the filter runs. |
| `Filter.NoFacebookRedirectWhenDone` | src/filter.php:83-87 | Once the flag is set, a request without `shared` gets no Facebook redirect and the flag stays set. |
| `Filter.DeepLinkRecordsIssuedAt` | src/filter.php:185-197 | A deep-link redirect needs a signed request whose `issued_at` is not the recorded one (under loose `==`). It records that `issued_at` and leaves the Facebook flag as the first step left it. |
| `Filter.DeepLinkTarget` | src/filter.php:43-49 | A deep-link redirect happens only when no Facebook redirect fired, and it goes to the truthy link `newAppDataUri` found. |
| `Filter.PassThroughIffNoRedirect` | src/filter.php:43-51 | The request passes through with the two headers exactly when neither redirect fires. The only session change is then the shared-link reset. |
| `Filter.AppDataRecordKept` | src/filter.php:24-52 | Only a deep-link redirect changes `done_app_data_redirect`. |
| `Filter.SameIssuedAtNoDeepLink` | src/filter.php:161-164 | A signed request whose `issued_at` equals the recorded one under loose `==` never gets a deep-link redirect; with nothing recorded, that includes an `issued_at` of 0. |
| `Filter.NewIssuedAtDeepLinks` | src/filter.php:154-197 | Take a new `issued_at` and `app_data` = `uri,u`, with u truthy and newline-free. If no Facebook redirect comes first, the request redirects to u and records the new `issued_at`. |
| `Filter.SharedPageScenario` | src/filter.php:118-146 | A desktop browser, not the crawler, opening `/<page>?shared=true` for a plain page name (such as `/landing?shared=true`) on a fresh session is sent to `<tabAppUrl>&app_data=uri,%2F<page>`, and the flag is set. |
| `Filter.SharedPageTarget` | src/filter.php:121-138 | The redirect target for `/<page>?shared=true`, with a plain page name, is `<tabAppUrl>&app_data=uri,%2F<page>`. |
| `Filter.OnlySharedKeepsPath` | src/filter.php:125-134 | When `shared` is the only parameter, the URL handed to Facebook is the bare path, with no `?`. |
| `Filter.SharedParameterRemoved` | src/filter.php:121-134 | `shared` followed by one plain `key=value` pair, such as `/page?shared=true&foo=bar`, is handed to Facebook as the path, `?` and that pair alone (`/page?foo=bar`). |
| `Filter.DashboardScenario` | src/filter.php:185-197 | Inside the tab app, with `done_facebook_redirect` set, nothing recorded in `done_app_data_redirect` and no `shared` in the query, a signed request {issued_at 1000, app_data `uri,/dashboard`} redirects to `/dashboard` and records 1000. |
| `Filter.MobileScenario` | src/filter.php:199-206 | Any mobile request, for instance from "Mobile Safari", without `shared` and without a signed request passes through with the two headers, on any session, and the session is unchanged. |
| `FilterRuns.Run` | src/filter.php:24-52 | Running `filter()` on each request in turn, from a given session, produces a run: every outcome and next session is that of one `filter()` call on the session before it. |
| `FilterRuns.FacebookFlagPersists` | src/filter.php:143 | Once `done_facebook_redirect` is set, it stays set over any run of requests without `shared`. |
| `FilterRuns.NoSecondFacebookRedirect` | src/filter.php:140-145 | After a Facebook redirect, no later request redirects to Facebook again until one carries `shared`. |
| `FilterRuns.AppDataRecordKeptBetween` | src/filter.php:194 | Over a run with no deep-link redirect, `done_app_data_redirect` does not change. |
| `FilterRuns.DeepLinkOncePerIssuedAt` | src/filter.php:187-194 | Two deep-link redirects with none between them never share an `issued_at`. |
| `FilterRuns.DeepLinkSequence` | src/filter.php:161-164 | Inside the tab app, with `done_facebook_redirect` set, nothing recorded in `done_app_data_redirect` at the start, and no `shared` in any request: {issued_at t, `uri,` + u}, with t not 0 (under loose `==`, 0 equals the missing record), with u truthy and newline-free (such as `/foo?x=1`), redirects to u and records t. The same signed request again passes through. A new issued_at t2 with the same `app_data` redirects again and records t2. |
| `FilterRuns.DeepLinkReplay` | src/filter.php:154-197 | Only the last `issued_at` is recorded: on the run A, B, A (A not 0, B different), all three requests deep-link, twice for A, and A is recorded after the first and the third. |

## Left out

- `Mobile_Detect::isMobile()` is a third-party user-agent database. It is the boolean input `Request.isMobile`.
- LaravelMobileFacebookAppFilter.DoAppDataUriRedirect: a direct call without a signed request is modelled as recording null and redirecting. In PHP, reading `issued_at` from a null or empty signed request (src/filter.php:194) raises a notice. Laravel's error handler turns that notice into an exception, so nothing is recorded and there is no redirect. `filter()` never makes such a call, because `newAppDataUri` returns false first (src/filter.php:156-158).
- `Facebook::getSignedRequest()` and `Facebook::getTabAppUrl()` come from the laravel-facebook library, which does the decoding and the signature check. The model takes their answers as the optional `SignedRequest` and an opaque byte string. A null signed request and an empty array are both None.
- A signed request without `issued_at` is not modelled. `issued_at` is always an integer here, as Facebook sends it.
- The session backend, `Redirect::to` and `header()` are I/O. They become the `Session` object and the returned `Outcome`. `PassThrough` carries the two header lines, whose text is a fixed constant.
- `$_GET` and the query of `REQUEST_URI` are taken to be the same parsed list. An absent query and an empty one behave alike, so both are the empty list. A failure of `parse_url` and a request target without a path are not modelled.
- The missing `User-Agent` header: the code reads it without a guard (src/filter.php:110). In PHP that raises an undefined-index notice, which Laravel's error handler turns into an exception, so the request fails before the redirect decision. The model ignores the notice and reads the missing header as the empty string, in which `facebookexternalhit` is never found.
- Query strings are modelled only for plain keys. The model leaves out bracket array syntax (`a[]=`), the rewriting of spaces and dots in keys to `_`, keys cut at a NUL byte, overwriting by duplicate keys, and `http_build_query`'s numeric prefixes and nested arrays. `ParseQuery` and `ReadRequestTarget` are readers for this plain subset, used only to state the round trip.
- `Stripos` folds ASCII letters only. That is `stripos` from PHP 8.2 on; earlier versions folded by the current locale.
- The service provider (`LaravelMobileFacebookAppServiceProvider.php`) only registers the package and a facade alias. It is not part of this model.
