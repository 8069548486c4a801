/**
 * The filter over a sequence of requests in one session: the promises that
 * span several calls of `filter()`.
 */
module FilterRuns {
  import opened Wrappers
  import opened PhpStrings
  import opened Query
  import opened Filter

  /**
   * A run of the filter: `states[k]` is the session before request `k`,
   * `outs[k]` the outcome of request `k`, and `states[k + 1]` the session it
   * leaves behind.
   */
  predicate IsRun(reqs: seq<Request>, states: seq<SessionState>, outs: seq<Outcome>)
  {
    && |states| == |reqs| + 1
    && |outs| == |reqs|
    && forall k :: 0 <= k < |reqs| ==> Step(states[k], reqs[k]) == (outs[k], states[k + 1])
  }

  /** The run of `reqs` from the session `s0`. */
  function Run(s0: SessionState, reqs: seq<Request>): (r: (seq<SessionState>, seq<Outcome>))
    ensures IsRun(reqs, r.0, r.1) && r.0[0] == s0
    decreases |reqs|
  {
    if reqs == [] then ([s0], [])
    else
      var first := Step(s0, reqs[0]);
      var rest := Run(first.1, reqs[1..]);
      var states := [s0] + rest.0;
      var outs := [first.0] + rest.1;
      assert forall k :: 0 < k < |reqs| ==> states[k] == rest.0[k - 1] && states[k + 1] == rest.0[k] && outs[k] == rest.1[k - 1] && reqs[k] == reqs[1..][k - 1];
      (states, outs)
  }

  /** `done_facebook_redirect`, once set, stays set while no request carries `shared`. */
  lemma {:induction false} FacebookFlagPersists(reqs: seq<Request>, states: seq<SessionState>, outs: seq<Outcome>, i: nat, j: nat)
    requires IsRun(reqs, states, outs)
    requires i <= j <= |reqs|
    requires states[i].doneFacebookRedirect
    requires forall k :: i <= k < j ==> !WasUrlShared(reqs[k])
    ensures states[j].doneFacebookRedirect
    decreases j - i
  {
    if i < j {
      assert Step(states[i], reqs[i]) == (outs[i], states[i + 1]);
      NoFacebookRedirectWhenDone(states[i], reqs[i]);
      FacebookFlagPersists(reqs, states, outs, i + 1, j);
    }
  }

  /**
   * After a Facebook redirect, no later request redirects to Facebook again
   * until one carries `shared`.
   */
  lemma NoSecondFacebookRedirect(reqs: seq<Request>, states: seq<SessionState>, outs: seq<Outcome>, i: nat, j: nat)
    requires IsRun(reqs, states, outs)
    requires i < j < |reqs|
    requires outs[i].FacebookRedirect?
    requires forall k :: i < k <= j ==> !WasUrlShared(reqs[k])
    ensures !outs[j].FacebookRedirect?
  {
    assert Step(states[i], reqs[i]) == (outs[i], states[i + 1]);
    FacebookRedirectEffect(states[i], reqs[i]);
    FacebookFlagPersists(reqs, states, outs, i + 1, j);
    assert Step(states[j], reqs[j]) == (outs[j], states[j + 1]);
    NoFacebookRedirectWhenDone(states[j], reqs[j]);
  }

  /** Between deep-link redirects, `done_app_data_redirect` does not change. */
  lemma {:induction false} AppDataRecordKeptBetween(reqs: seq<Request>, states: seq<SessionState>, outs: seq<Outcome>, i: nat, j: nat)
    requires IsRun(reqs, states, outs)
    requires i <= j <= |reqs|
    requires forall k :: i <= k < j ==> !outs[k].AppDataRedirect?
    ensures states[j].doneAppDataRedirect == states[i].doneAppDataRedirect
    decreases j - i
  {
    if i < j {
      assert Step(states[i], reqs[i]) == (outs[i], states[i + 1]);
      AppDataRecordKept(states[i], reqs[i]);
      AppDataRecordKeptBetween(reqs, states, outs, i + 1, j);
    }
  }

  /**
   * Two deep-link redirects with none between them were made for different
   * `issued_at` values.
   */
  lemma DeepLinkOncePerIssuedAt(reqs: seq<Request>, states: seq<SessionState>, outs: seq<Outcome>, i: nat, j: nat)
    requires IsRun(reqs, states, outs)
    requires i < j < |reqs|
    requires outs[i].AppDataRedirect? && outs[j].AppDataRedirect?
    requires forall k :: i < k < j ==> !outs[k].AppDataRedirect?
    ensures reqs[i].signedRequest.Some? && reqs[j].signedRequest.Some?
    ensures reqs[i].signedRequest.value.issuedAt != reqs[j].signedRequest.value.issuedAt
  {
    assert Step(states[i], reqs[i]) == (outs[i], states[i + 1]);
    DeepLinkRecordsIssuedAt(states[i], reqs[i]);
    AppDataRecordKeptBetween(reqs, states, outs, i + 1, j);
    assert Step(states[j], reqs[j]) == (outs[j], states[j + 1]);
    DeepLinkRecordsIssuedAt(states[j], reqs[j]);
  }

  /**
   * A deep-link sequence inside the tab app, after the Facebook redirect has
   * been made: the signed request {issued_at: t, app_data: "uri," + u} (for
   * instance "uri,/foo?x=1") redirects to u, the same signed request again
   * passes through, and one with a new `issued_at` t2 and the same
   * `app_data` redirects again.
   */
  lemma DeepLinkSequence(r1: Request, r2: Request, r3: Request, t: int, t2: int, u: Bytes,
                         states: seq<SessionState>, outs: seq<Outcome>)
    requires t != 0 && t2 != t
    requires '\n' !in u && Truthy(u)
    requires !WasUrlShared(r1) && !WasUrlShared(r2) && !WasUrlShared(r3)
    requires r1.signedRequest == r2.signedRequest == Some(SignedRequest(t, Some(UriPrefix + u)))
    requires r3.signedRequest == Some(SignedRequest(t2, Some(UriPrefix + u)))
    requires IsRun([r1, r2, r3], states, outs) && states[0] == SessionState(true, None)
    ensures outs == [AppDataRedirect(u), PassThrough(P3PHeaders), AppDataRedirect(u)]
    ensures states[1].doneAppDataRedirect == Some(t)
    ensures states[3].doneAppDataRedirect == Some(t2)
  {
    var reqs := [r1, r2, r3];
    assert Step(states[0], reqs[0]) == (outs[0], states[1]);
    NewIssuedAtDeepLinks(states[0], r1, u);
    assert Step(states[1], reqs[1]) == (outs[1], states[2]);
    SameIssuedAtNoDeepLink(states[1], r2);
    PassThroughIffNoRedirect(states[1], r2);
    assert Step(states[2], reqs[2]) == (outs[2], states[3]);
    NewIssuedAtDeepLinks(states[2], r3, u);
  }

  /**
   * Only the last `issued_at` is recorded, so an older one comes back into
   * force: the run A, B, A (A and B different, A not 0) deep-links all three
   * times, twice for the same `issued_at` A.
   */
  lemma DeepLinkReplay(r1: Request, r2: Request, r3: Request, a: int, b: int, u: Bytes,
                       states: seq<SessionState>, outs: seq<Outcome>)
    requires a != 0 && a != b
    requires '\n' !in u && Truthy(u)
    requires !WasUrlShared(r1) && !WasUrlShared(r2) && !WasUrlShared(r3)
    requires r1.signedRequest == r3.signedRequest == Some(SignedRequest(a, Some(UriPrefix + u)))
    requires r2.signedRequest == Some(SignedRequest(b, Some(UriPrefix + u)))
    requires IsRun([r1, r2, r3], states, outs) && states[0] == SessionState(true, None)
    ensures outs == [AppDataRedirect(u), AppDataRedirect(u), AppDataRedirect(u)]
    ensures states[1].doneAppDataRedirect == states[3].doneAppDataRedirect == Some(a)
  {
    var reqs := [r1, r2, r3];
    assert Step(states[0], reqs[0]) == (outs[0], states[1]);
    NewIssuedAtDeepLinks(states[0], r1, u);
    assert Step(states[1], reqs[1]) == (outs[1], states[2]);
    NewIssuedAtDeepLinks(states[1], r2, u);
    assert Step(states[2], reqs[2]) == (outs[2], states[3]);
    NewIssuedAtDeepLinks(states[2], r3, u);
  }
}
