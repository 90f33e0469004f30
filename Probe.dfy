/**
 * Probing one site: `check_admin_panel`. The site is normalised to carry a
 * scheme, every catalog path is turned into a candidate URL, and each URL is
 * requested up to three times. The network is an oracle that answers the
 * request for a URL at a given attempt number; the requests the prober issues
 * are returned as a trace.
 */
module Probe {
  import opened Wrappers
  import opened Strings
  import opened LoginForm

  /** What one `session.get` gives: an HTTP response, or a `RequestException`. */
  datatype Outcome =
    | Response(status: int, inputs: seq<InputField>)
    | TransportError

  /** The network for the whole scan, indexed only by URL and attempt number: the outcome of attempt `a` on `url`. */
  type Network = (string, nat) -> Outcome

  /** One `session.get(url)` call, made at attempt number `attempt` for its path. */
  datatype Request = Request(url: string, attempt: nat)

  /** `range(3)`: the attempt budget of one path. */
  const MaxAttempts: nat := 3

  const Scheme := "http://"

  /** `if not url.startswith("http"): url = "http://" + url`. */
  function Normalize(url: string): (r: string)
    ensures StartsWith(r, "http")
    ensures r == url <==> StartsWith(url, "http")
    ensures r == url || r == Scheme + url
  {
    if StartsWith(url, "http") then url else Scheme + url
  }

  lemma NormalizeIdempotent(url: string)
    ensures Normalize(Normalize(url)) == Normalize(url)
  {
  }

  /** `f"{url}/{path}"`: plain concatenation, no escaping and no merging of slashes. */
  function CandidateUrl(site: string, path: string): (r: string)
    ensures |r| == |site| + 1 + |path|
    ensures r[..|site|] == site && r[|site|] == '/' && r[|site| + 1..] == path
  {
    site + "/" + path
  }

  /** On one site, distinct paths give distinct candidate URLs. */
  lemma CandidateUrlInjective(site: string, p: string, q: string)
    requires CandidateUrl(site, p) == CandidateUrl(site, q)
    ensures p == q
  {
    assert p == CandidateUrl(site, p)[|site| + 1..];
  }

  /** Attempts end on a 200 response or on a transport error (the two `break`s). */
  predicate Stops(o: Outcome) {
    o.TransportError? || o.status == 200
  }

  /** A 200 response whose page the classifier accepts. */
  predicate IsLoginPage(o: Outcome) {
    o.Response? && o.status == 200 && CheckLoginForm(o.inputs)
  }

  /** A response with a status other than 200 (403 among them): the attempt loop goes on. */
  predicate IsRetried(o: Outcome) {
    o.Response? && o.status != 200
  }

  /** The requests made for `url` from attempt `a` on. */
  function PathRequests(net: Network, url: string, a: nat): (r: seq<Request>)
    requires a <= MaxAttempts
    ensures |r| <= MaxAttempts - a
    ensures a < MaxAttempts ==> 1 <= |r|
    ensures forall k :: 0 <= k < |r| ==> r[k] == Request(url, a + k)
    decreases MaxAttempts - a
  {
    if a == MaxAttempts then []
    else [Request(url, a)] + (if Stops(net(url, a)) then [] else PathRequests(net, url, a + 1))
  }

  /**
   * Whether attempts from `a` on end with `url` recorded: exactly when, within
   * the budget, the first outcome that is not a non-200 response is a 200
   * response carrying a login form.
   */
  predicate PathRecorded(net: Network, url: string, a: nat)
    requires a <= MaxAttempts
    ensures PathRecorded(net, url, a) <==>
              exists k :: a <= k < MaxAttempts && RetriedBetween(net, url, a, k) && IsLoginPage(net(url, k))
    decreases MaxAttempts - a
  {
    if a == MaxAttempts then false
    else
      match net(url, a)
      case TransportError => false
      case Response(status, inputs) =>
        if status == 200 then CheckLoginForm(inputs) else PathRecorded(net, url, a + 1)
  }

  /** What one path adds to the site's results. */
  function PathResult(net: Network, url: string): seq<string> {
    if PathRecorded(net, url, 0) then [url] else []
  }

  /** The results of probing `paths` on the normalised `site`, in catalog order. */
  function SiteResults(net: Network, site: string, paths: seq<string>): seq<string>
    decreases |paths|
  {
    if paths == [] then []
    else
      var n := |paths| - 1;
      SiteResults(net, site, paths[..n]) + PathResult(net, CandidateUrl(site, paths[n]))
  }

  /** The requests issued while probing `paths` on `site`, in the order they are made. */
  function SiteRequests(net: Network, site: string, paths: seq<string>): seq<Request>
    decreases |paths|
  {
    if paths == [] then []
    else
      var n := |paths| - 1;
      SiteRequests(net, site, paths[..n]) + PathRequests(net, CandidateUrl(site, paths[n]), 0)
  }

  /** A retried attempt: its request is followed by the requests of the attempts after it. */
  lemma RetryStep(net: Network, url: string, a: nat, acc: seq<Request>)
    requires a < MaxAttempts && !Stops(net(url, a))
    ensures acc + [Request(url, a)] + PathRequests(net, url, a + 1) == acc + PathRequests(net, url, a)
  {
    assert PathRequests(net, url, a) == [Request(url, a)] + PathRequests(net, url, a + 1);
  }

  /**
   * The attempt loop of `check_admin_panel` for one candidate URL: up to
   * `MaxAttempts` requests, a match appended to `results`.
   */
  method ProbePath(adminUrl: string, net: Network, results0: seq<string>, requests0: seq<Request>)
    returns (results: seq<string>, requests: seq<Request>)
    ensures results == results0 + PathResult(net, adminUrl)
    ensures requests == requests0 + PathRequests(net, adminUrl, 0)
  {
    results, requests := results0, requests0;
    for attempt := 0 to MaxAttempts
      invariant results == results0
      invariant PathRecorded(net, adminUrl, attempt) == PathRecorded(net, adminUrl, 0)
      invariant requests + PathRequests(net, adminUrl, attempt) == requests0 + PathRequests(net, adminUrl, 0)
    {
      ghost var before := requests;
      requests := requests + [Request(adminUrl, attempt)];
      var response := net(adminUrl, attempt);
      if response.TransportError? {
        assert PathRequests(net, adminUrl, attempt) == [Request(adminUrl, attempt)];
        break;
      }
      if response.status == 200 {
        assert PathRequests(net, adminUrl, attempt) == [Request(adminUrl, attempt)];
        if CheckLoginForm(response.inputs) {
          results := results + [adminUrl];
        }
        break;
      }
      RetryStep(net, adminUrl, attempt, before);
    }
  }

  /**
   * `check_admin_panel(url, paths)`: the matches of one site, and the requests
   * it issued.
   */
  method CheckAdminPanel(url: string, paths: seq<string>, net: Network)
    returns (results: seq<string>, requests: seq<Request>)
    ensures results == SiteResults(net, Normalize(url), paths)
    ensures requests == SiteRequests(net, Normalize(url), paths)
  {
    results, requests := [], [];
    var site := url;
    if !StartsWith(site, "http") {
      site := Scheme + site;
    }
    for i := 0 to |paths|
      invariant results == SiteResults(net, site, paths[..i])
      invariant requests == SiteRequests(net, site, paths[..i])
    {
      var adminUrl := site + "/" + paths[i];
      assert adminUrl == CandidateUrl(site, paths[i]);
      results, requests := ProbePath(adminUrl, net, results, requests);
      assert paths[..i + 1][..i] == paths[..i];
    }
    assert paths[..|paths|] == paths;
  }

  // Properties of one path's attempts.

  /** The outcomes of attempts `a` to `k - 1` on `url` were all non-200 responses. */
  predicate RetriedBetween(net: Network, url: string, a: nat, k: nat) {
    forall j :: a <= j < k ==> IsRetried(net(url, j))
  }

  /**
   * The attempt loop goes on exactly while responses are non-200: every attempt
   * but the last got such a response, and the last one, unless the budget ran
   * out, got a 200 response or a transport error.
   */
  lemma {:induction false} PathRequestsStopRule(net: Network, url: string, a: nat)
    requires a < MaxAttempts
    ensures RetriedBetween(net, url, a, a + |PathRequests(net, url, a)| - 1)
    ensures a + |PathRequests(net, url, a)| < MaxAttempts ==>
              Stops(net(url, a + |PathRequests(net, url, a)| - 1))
    decreases MaxAttempts - a
  {
    if !Stops(net(url, a)) && a + 1 < MaxAttempts {
      PathRequestsStopRule(net, url, a + 1);
    }
  }

  /**
   * Non-200 responses, 403 included, do not end the attempts: when all three
   * attempts get one, the URL is requested three times and not recorded.
   */
  lemma RetriedStatusesUseWholeBudget(net: Network, url: string)
    requires RetriedBetween(net, url, 0, MaxAttempts)
    ensures PathRequests(net, url, 0) == [Request(url, 0), Request(url, 1), Request(url, 2)]
    ensures !PathRecorded(net, url, 0)
  {
    assert IsRetried(net(url, 0)) && IsRetried(net(url, 1)) && IsRetried(net(url, 2));
  }

  /**
   * A forbidden path costs three requests, not one, and is never recorded,
   * whatever the 403 pages contain.
   */
  lemma ForbiddenRequestedThreeTimes(net: Network, url: string)
    requires forall j :: 0 <= j < MaxAttempts ==> net(url, j).Response? && net(url, j).status == 403
    ensures |PathRequests(net, url, 0)| == MaxAttempts
    ensures !PathRecorded(net, url, 0)
  {
    RetriedStatusesUseWholeBudget(net, url);
  }

  // Properties of a whole site.

  /** The candidate URLs of a site, one per catalog path, in catalog order. */
  function Candidates(site: string, paths: seq<string>): (r: seq<string>)
    ensures |r| == |paths|
    ensures forall k :: 0 <= k < |paths| ==> r[k] == CandidateUrl(site, paths[k])
    decreases |paths|
  {
    if paths == [] then []
    else Candidates(site, paths[..|paths| - 1]) + [CandidateUrl(site, paths[|paths| - 1])]
  }

  /** `a` is obtained from `b` by deleting elements. */
  predicate IsSubsequence<T(==)>(a: seq<T>, b: seq<T>)
    decreases |b|
  {
    if a == [] then true
    else if b == [] then false
    else
      || (a[|a| - 1] == b[|b| - 1] && IsSubsequence(a[..|a| - 1], b[..|b| - 1]))
      || IsSubsequence(a, b[..|b| - 1])
  }

  lemma {:induction false} SubsequenceBounds<T>(a: seq<T>, b: seq<T>)
    requires IsSubsequence(a, b)
    ensures |a| <= |b|
    ensures forall x :: x in a ==> x in b
    decreases |b|
  {
    if a != [] {
      var a', b' := a[..|a| - 1], b[..|b| - 1];
      if a[|a| - 1] == b[|b| - 1] && IsSubsequence(a', b') {
        SubsequenceBounds(a', b');
        assert a == a' + [a[|a| - 1]] && b == b' + [b[|b| - 1]];
      } else {
        SubsequenceBounds(a, b');
        assert b == b' + [b[|b| - 1]];
      }
    }
  }

  /** The site's results are some of its candidate URLs, in catalog order. */
  lemma {:induction false} SiteResultsAreSubsequence(net: Network, site: string, paths: seq<string>)
    ensures IsSubsequence(SiteResults(net, site, paths), Candidates(site, paths))
    decreases |paths|
  {
    if paths != [] {
      var n := |paths| - 1;
      var u := CandidateUrl(site, paths[n]);
      var prev := SiteResults(net, site, paths[..n]);
      SiteResultsAreSubsequence(net, site, paths[..n]);
      var r := SiteResults(net, site, paths);
      var c := Candidates(site, paths);
      assert c[..n] == Candidates(site, paths[..n]);
      if PathRecorded(net, u, 0) {
        assert r[..|r| - 1] == prev;
      } else {
        assert r == prev;
        if r != [] {
          SubsequenceAppend(r, c[..n], u);
        }
      }
    }
  }

  lemma SubsequenceAppend<T>(a: seq<T>, b: seq<T>, x: T)
    requires IsSubsequence(a, b)
    ensures IsSubsequence(a, b + [x])
  {
    if a != [] {
      assert (b + [x])[..|b|] == b;
    }
  }

  /** Each path contributes at most one result. */
  lemma SiteResultsBound(net: Network, site: string, paths: seq<string>)
    ensures |SiteResults(net, site, paths)| <= |paths|
  {
    SiteResultsAreSubsequence(net, site, paths);
    SubsequenceBounds(SiteResults(net, site, paths), Candidates(site, paths));
  }

  /**
   * A URL is among the site's results exactly when it is the candidate URL of a
   * catalog path whose attempts record it.
   */
  lemma {:induction false} SiteResultsMembers(net: Network, site: string, paths: seq<string>, u: string)
    ensures u in SiteResults(net, site, paths) <==>
              exists k :: 0 <= k < |paths| && u == CandidateUrl(site, paths[k]) && PathRecorded(net, u, 0)
  {
    SiteResultsAreRecordedCandidates(net, site, paths, u);
    var c := Candidates(site, paths);
    if u in c {
      var k :| 0 <= k < |c| && c[k] == u;
      assert u == CandidateUrl(site, paths[k]);
    }
  }

  lemma {:induction false} SiteResultsAreRecordedCandidates(net: Network, site: string, paths: seq<string>, u: string)
    ensures u in SiteResults(net, site, paths) <==> u in Candidates(site, paths) && PathRecorded(net, u, 0)
    decreases |paths|
  {
    if paths != [] {
      var n := |paths| - 1;
      var last := CandidateUrl(site, paths[n]);
      assert SiteResults(net, site, paths) == SiteResults(net, site, paths[..n]) + PathResult(net, last);
      assert Candidates(site, paths) == Candidates(site, paths[..n]) + [last];
      SiteResultsAreRecordedCandidates(net, site, paths[..n], u);
    }
  }

  /** Every path costs between one and three requests. */
  lemma {:induction false} SiteRequestsBounds(net: Network, site: string, paths: seq<string>)
    ensures |paths| <= |SiteRequests(net, site, paths)| <= MaxAttempts * |paths|
    decreases |paths|
  {
    if paths != [] {
      SiteRequestsBounds(net, site, paths[..|paths| - 1]);
    }
  }

  /** The URLs of the first attempts, in order. */
  function FirstAttempts(rs: seq<Request>): seq<string>
    decreases |rs|
  {
    if rs == [] then []
    else
      var r := rs[|rs| - 1];
      FirstAttempts(rs[..|rs| - 1]) + (if r.attempt == 0 then [r.url] else [])
  }

  lemma {:induction false} FirstAttemptsAppend(a: seq<Request>, b: seq<Request>)
    ensures FirstAttempts(a + b) == FirstAttempts(a) + FirstAttempts(b)
    decreases |b|
  {
    if b != [] {
      var b' := b[..|b| - 1];
      assert (a + b)[..|a + b| - 1] == a + b';
      FirstAttemptsAppend(a, b');
    } else {
      assert a + b == a;
    }
  }

  lemma {:induction false} FirstAttemptsOfPath(net: Network, url: string, a: nat)
    requires a <= MaxAttempts
    ensures FirstAttempts(PathRequests(net, url, a)) == if a == 0 then [url] else []
    decreases MaxAttempts - a
  {
    if a < MaxAttempts {
      var rest := if Stops(net(url, a)) then [] else PathRequests(net, url, a + 1);
      if !Stops(net(url, a)) {
        FirstAttemptsOfPath(net, url, a + 1);
      }
      FirstAttemptsAppend([Request(url, a)], rest);
      assert FirstAttempts([Request(url, a)]) == if a == 0 then [url] else [];
    }
  }

  /**
   * Every catalog path is probed, in catalog order: the first attempts of the
   * site's requests are exactly its candidate URLs.
   */
  lemma {:induction false} SiteProbesEveryCandidate(net: Network, site: string, paths: seq<string>)
    ensures FirstAttempts(SiteRequests(net, site, paths)) == Candidates(site, paths)
    decreases |paths|
  {
    if paths != [] {
      var n := |paths| - 1;
      var u := CandidateUrl(site, paths[n]);
      SiteProbesEveryCandidate(net, site, paths[..n]);
      FirstAttemptsAppend(SiteRequests(net, site, paths[..n]), PathRequests(net, u, 0));
      FirstAttemptsOfPath(net, u, 0);
    }
  }

  /** A site on which every request fails in transport yields nothing, at one request per path. */
  lemma {:induction false} UnreachableSiteFindsNothing(net: Network, site: string, paths: seq<string>)
    requires forall k, a :: 0 <= k < |paths| ==> net(CandidateUrl(site, paths[k]), a) == TransportError
    ensures SiteResults(net, site, paths) == []
    ensures |SiteRequests(net, site, paths)| == |paths|
    decreases |paths|
  {
    if paths != [] {
      var n := |paths| - 1;
      var u := CandidateUrl(site, paths[n]);
      forall k, a | 0 <= k < n
        ensures net(CandidateUrl(site, paths[..n][k]), a) == TransportError
      {
        assert paths[..n][k] == paths[k];
      }
      UnreachableSiteFindsNothing(net, site, paths[..n]);
      assert net(u, 0) == TransportError;
      assert PathRequests(net, u, 0) == [Request(u, 0)];
      assert PathResult(net, u) == [];
    }
  }

  /**
   * With the catalog `["admin", "login"]` and a site where only `/admin` answers
   * 200 with a password field, the site's one result is `<site>/admin`.
   */
  lemma AdminOnlyExample(net: Network, site: string)
    requires net(CandidateUrl(site, "admin"), 0) == Response(200, [InputField(None, None), InputField(Some("password"), None)])
    requires forall a :: net(CandidateUrl(site, "login"), a) == Response(404, [])
    ensures SiteResults(net, site, ["admin", "login"]) == [CandidateUrl(site, "admin")]
  {
    var paths := ["admin", "login"];
    assert paths[..1] == ["admin"] && paths[..1][..0] == [];
    PasswordOrTextInputSuffices([InputField(None, None), InputField(Some("password"), None)], 1, "password");
    RetriedStatusesUseWholeBudget(net, CandidateUrl(site, "login"));
  }
}
