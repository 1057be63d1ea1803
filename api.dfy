/**
 * The configured HTTP client: the cookie lookup, the request interceptor that copies
 * the CSRF cookie into a header, and the response interceptor that refetches the CSRF
 * token and replays a request once.
 */
module Api {
  import opened Options
  import opened Strings
  import opened Http

  const CsrfCookie := "csrf_access_token"
  const CsrfHeader := "X-CSRF-TOKEN"
  const StateChangingMethods := ["post", "put", "patch", "delete"]

  /* ---------------- cookie lookup ---------------- */

  /** The cookie string as `getCookie` searches it, with a separator in front of the first cookie. */
  function Prefixed(cookie: string): string {
    "; " + cookie
  }

  /** The text that precedes the value of cookie `name`. */
  function Needle(name: string): string {
    "; " + name + "="
  }

  /**
   * `getCookie(name)` over the cookie string `cookie`: split on `"; name="`; when that
   * gives exactly two pieces, the value is the second piece up to its first `;`.
   */
  function GetCookie(cookie: string, name: string): (r: Option<string>)
    ensures r.Some? ==> Contains(Prefixed(cookie), Needle(name))
    ensures r.Some? ==> forall k :: 0 <= k < |r.value| ==> r.value[k] != ';'
  {
    var parts := Split(Prefixed(cookie), Needle(name));
    if |parts| == 2 then
      FirstSegment(parts[1]);
      Some(Split(parts[1], ";")[0])
    else
      None
  }

  /** `v` is the text of `rest` up to its first `;`, or all of `rest` when it has none. */
  ghost predicate UpToSemicolon(rest: string, v: string) {
    && v <= rest
    && (forall k :: 0 <= k < |v| ==> v[k] != ';')
    && (|v| < |rest| ==> rest[|v|] == ';')
  }

  lemma {:induction false} FirstSegment(t: string)
    ensures UpToSemicolon(t, Split(t, ";")[0])
  {
    match Find(t, ";", 0)
    case None =>
      forall k | 0 <= k < |t|
        ensures t[k] != ';'
      {
        assert t[k..k + 1] == [t[k]];
        assert !Occurs(t, ";", k);
      }
    case Some(i) =>
      assert Split(t, ";")[0] == t[..i];
      assert t[i..i + 1] == [t[i]];
      forall k | 0 <= k < i
        ensures t[k] != ';'
      {
        assert t[k..k + 1] == [t[k]];
        assert !Occurs(t, ";", k);
      }
  }

  /** A cookie whose `"; name="` occurs exactly once is found, and its value runs to the next `;` or the end. */
  lemma GetCookieUnique(cookie: string, name: string, p: int)
    requires OnlyOccurrence(Prefixed(cookie), Needle(name), p)
    ensures GetCookie(cookie, name).Some?
    ensures UpToSemicolon(Prefixed(cookie)[p + |Needle(name)|..], GetCookie(cookie, name).value)
  {
    var s, sep := Prefixed(cookie), Needle(name);
    assert SplitsOnceAt(s, sep, p);
    SplitOnce(s, sep, p);
    FirstSegment(s[p + |sep|..]);
  }

  /** A cookie whose name does not occur is not found. */
  lemma GetCookieAbsent(cookie: string, name: string)
    requires forall q :: !Occurs(Prefixed(cookie), Needle(name), q)
    ensures GetCookie(cookie, name) == None
  {
    if |Split(Prefixed(cookie), Needle(name))| == 2 {
      var p := SplitInTwo(Prefixed(cookie), Needle(name));
    }
  }

  /** Two occurrences of `"; name="` cannot overlap when the name holds no `;`. */
  lemma NeedlesApart(s: string, name: string, p: int, q: int)
    requires forall k :: 0 <= k < |name| ==> name[k] != ';'
    requires Occurs(s, Needle(name), p) && Occurs(s, Needle(name), q) && p < q
    ensures p + |Needle(name)| <= q
  {
    var sep := Needle(name);
    OccursAt(s, sep, q, 0);
    if q < p + |sep| {
      OccursAt(s, sep, p, q - p);
      NeedleTail(name, q - p);
    }
  }

  lemma OccursAt(s: string, sub: string, p: int, k: int)
    requires Occurs(s, sub, p) && 0 <= k < |sub|
    ensures s[p + k] == sub[k]
  {
    assert s[p..p + |sub|][k] == s[p + k];
  }

  /** Only the first character of `"; name="` can be a `;` when the name holds none. */
  lemma NeedleTail(name: string, k: int)
    requires forall i :: 0 <= i < |name| ==> name[i] != ';'
    requires 0 < k < |Needle(name)|
    ensures Needle(name)[k] != ';'
  {
    if 2 <= k < |Needle(name)| - 1 {
      assert Needle(name)[k] == name[k - 2];
    }
  }

  /** Whenever a cookie (whose name holds no `;`) is found, its `"; name="` occurs exactly once. */
  lemma {:induction false} GetCookieFoundOnce(cookie: string, name: string) returns (p: int)
    requires forall k :: 0 <= k < |name| ==> name[k] != ';'
    requires GetCookie(cookie, name).Some?
    ensures OnlyOccurrence(Prefixed(cookie), Needle(name), p)
  {
    var s, sep := Prefixed(cookie), Needle(name);
    p := SplitInTwo(s, sep);
    forall q | Occurs(s, sep, q)
      ensures q == p
    {
      if q > p {
        NeedlesApart(s, name, p, q);
      }
    }
  }

  /** A cookie whose name (holding no `;`) occurs twice is not found. */
  lemma GetCookieRepeated(cookie: string, name: string, p: int, q: int)
    requires forall k :: 0 <= k < |name| ==> name[k] != ';'
    requires p != q && Occurs(Prefixed(cookie), Needle(name), p) && Occurs(Prefixed(cookie), Needle(name), q)
    ensures GetCookie(cookie, name) == None
  {
    if GetCookie(cookie, name).Some? {
      var r := GetCookieFoundOnce(cookie, name);
    }
  }

  /* ---------------- request interceptor ---------------- */

  /** `["post", "put", "patch", "delete"].includes(config.method?.toLowerCase())`. */
  predicate IsStateChanging(httpMethod: Option<string>)
    ensures IsStateChanging(httpMethod) ==> httpMethod.Some? && 3 <= |httpMethod.value| <= 6
  {
    httpMethod.Some? && Lower(httpMethod.value) in StateChangingMethods
  }

  /** The method test ignores ASCII case: `POST` and `post` are treated alike. */
  lemma StateChangingIgnoresCase(httpMethod: string)
    ensures IsStateChanging(Some(httpMethod)) <==> IsStateChanging(Some(Lower(httpMethod)))
  {
    assert Lower(Lower(httpMethod)) == Lower(httpMethod);
  }

  /** `m` equals `w` up to ASCII case: each character is `w`'s own or its upper-case form. */
  predicate SameIgnoringCase(m: string, w: string) {
    && |m| == |w|
    && forall i :: 0 <= i < |w| ==> m[i] == w[i] || m[i] as int + 32 == w[i] as int
  }

  /** Lower-casing `m` gives the lower-case word `w` exactly when `m` is `w` up to ASCII case. */
  lemma LowerGivesWord(m: string, w: string)
    requires forall i :: 0 <= i < |w| ==> 'a' <= w[i] <= 'z'
    ensures Lower(m) == w <==> SameIgnoringCase(m, w)
  {
    if SameIgnoringCase(m, w) {
      forall i | 0 <= i < |w|
        ensures Lower(m)[i] == w[i]
      {
        assert LowerChar(m[i]) == Lower(m)[i];
      }
    }
  }

  /**
   * The method test without `toLowerCase`: a method passes exactly when it is one of
   * post, put, patch or delete, each letter in either ASCII case.
   */
  lemma StateChangingMethodTest(httpMethod: string)
    ensures IsStateChanging(Some(httpMethod)) <==>
      exists w :: w in StateChangingMethods && SameIgnoringCase(httpMethod, w)
  {
    forall w | w in StateChangingMethods
      ensures Lower(httpMethod) == w <==> SameIgnoringCase(httpMethod, w)
    {
      LowerGivesWord(httpMethod, w);
    }
  }

  /** "POST" and "Delete" are stamped methods; "GET" is not. */
  lemma StateChangingExamples()
    ensures IsStateChanging(Some("POST")) && IsStateChanging(Some("Delete"))
    ensures !IsStateChanging(Some("GET"))
  {
    StateChangingMethodTest("POST");
    StateChangingMethodTest("Delete");
    assert Lower("GET")[1] == 'e';
    assert SameIgnoringCase("POST", "post");
    assert SameIgnoringCase("Delete", "delete");
  }

  /**
   * The value the request interceptor writes into `X-CSRF-TOKEN`, or None when it leaves
   * the config alone: only a state-changing request, only a non-empty cookie value.
   */
  function StampedToken(httpMethod: Option<string>, cookie: string): (r: Option<string>)
    ensures r.Some? ==> IsStateChanging(httpMethod)
    ensures r.Some? ==> r == GetCookie(cookie, CsrfCookie) && r.value != ""
    ensures r.Some? ==> forall k :: 0 <= k < |r.value| ==> r.value[k] != ';'
  {
    var token := GetCookie(cookie, CsrfCookie);
    if IsStateChanging(httpMethod) && Truthy(token) then token else None
  }

  /**
   * The request interceptor: a state-changing request whose CSRF cookie has a non-empty
   * value gets that value in `X-CSRF-TOKEN`; every other config is returned unchanged.
   */
  method InterceptRequest(config: RequestConfig, cookie: string)
    modifies config`headers
    ensures StampedToken(config.httpMethod, cookie).Some? ==>
      config.headers == old(config.headers)[CsrfHeader := StampedToken(config.httpMethod, cookie).value]
    ensures StampedToken(config.httpMethod, cookie).None? ==> config.headers == old(config.headers)
  {
    if IsStateChanging(config.httpMethod) {
      var csrfToken := GetCookie(cookie, CsrfCookie);
      if Truthy(csrfToken) {
        config.headers := config.headers[CsrfHeader := csrfToken.value];
      }
    }
  }

  lemma CsrfCookieNameHasNoSemicolon()
    ensures forall k :: 0 <= k < |CsrfCookie| ==> CsrfCookie[k] != ';'
  {
  }

  /**
   * A state-changing request is stamped with the value of the CSRF cookie when the
   * cookie occurs exactly once with a non-empty value.
   */
  lemma StampIsCookieValue(httpMethod: Option<string>, cookie: string, p: int)
    requires IsStateChanging(httpMethod)
    requires OnlyOccurrence(Prefixed(cookie), Needle(CsrfCookie), p)
    requires p + |Needle(CsrfCookie)| < |Prefixed(cookie)|
    requires Prefixed(cookie)[p + |Needle(CsrfCookie)|] != ';'
    ensures StampedToken(httpMethod, cookie).Some?
    ensures UpToSemicolon(Prefixed(cookie)[p + |Needle(CsrfCookie)|..], StampedToken(httpMethod, cookie).value)
  {
    GetCookieUnique(cookie, CsrfCookie, p);
  }

  /** No request is stamped unless the CSRF cookie occurs exactly once. */
  lemma NoStampWithoutSingleCookie(httpMethod: Option<string>, cookie: string)
    requires forall p :: !OnlyOccurrence(Prefixed(cookie), Needle(CsrfCookie), p)
    ensures StampedToken(httpMethod, cookie) == None
  {
    if GetCookie(cookie, CsrfCookie).Some? {
      CsrfCookieNameHasNoSemicolon();
      var p := GetCookieFoundOnce(cookie, CsrfCookie);
    }
  }

  /* ---------------- CSRF retry interceptor ---------------- */

  /** A 403 whose `data.msg` mentions CSRF. */
  predicate IsCsrfRejection(response: Option<ErrorResponse>)
    ensures IsCsrfRejection(response) <==>
      && response.Some?
      && response.value.status == 403
      && response.value.data.msg.Some?
      && exists j :: Occurs(response.value.data.msg.value, "CSRF", j)
  {
    && response.Some?
    && response.value.status == 403
    && response.value.data.msg.Some?
    && Contains(response.value.data.msg.value, "CSRF")
  }

  /**
   * The token a failed request is replayed with, or None when the original error is
   * rejected: only a CSRF rejection of a request not yet marked `_csrfRetry`, and only
   * when the token refetch succeeded and left a non-empty cookie behind.
   */
  function CsrfReplayToken(response: Option<ErrorResponse>, alreadyRetried: bool, refetched: bool, cookieAfter: string): (r: Option<string>)
    ensures alreadyRetried || !refetched || !IsCsrfRejection(response) ==> r.None?
    ensures r.Some? ==> r == GetCookie(cookieAfter, CsrfCookie) && r.value != ""
  {
    var newToken := GetCookie(cookieAfter, CsrfCookie);
    if IsCsrfRejection(response) && !alreadyRetried && refetched && Truthy(newToken) then newToken else None
  }

  /**
   * The CSRF-retry response interceptor for a failed request `config` with `response`.
   * `refetched` is whether `GET /csrf-token` succeeded and `cookieAfter` the cookie string
   * after it. Returns whether `config` is replayed; otherwise the original error is rejected.
   * The mark is set before the refetch, so a request is replayed at most once.
   */
  method OnCsrfError(config: RequestConfig, response: Option<ErrorResponse>, refetched: bool, cookieAfter: string)
    returns (replay: bool)
    modifies config`csrfRetry, config`headers
    ensures replay <==> CsrfReplayToken(response, old(config.csrfRetry), refetched, cookieAfter).Some?
    ensures old(config.csrfRetry) ==> !replay
    ensures config.csrfRetry == (old(config.csrfRetry) || IsCsrfRejection(response))
    ensures replay ==>
              config.headers == old(config.headers)[CsrfHeader := CsrfReplayToken(response, old(config.csrfRetry), refetched, cookieAfter).value]
    ensures !replay ==> config.headers == old(config.headers)
  {
    replay := false;
    if IsCsrfRejection(response) && !config.csrfRetry {
      config.csrfRetry := true;
      if refetched {
        var newToken := GetCookie(cookieAfter, CsrfCookie);
        if Truthy(newToken) {
          config.headers := config.headers[CsrfHeader := newToken.value];
          replay := true;
        }
      }
    }
  }

  /**
   * A request that fails with a CSRF rejection, is replayed and fails the same way again
   * is not replayed a second time: the second failure is rejected unchanged.
   */
  method CsrfReplayIsOneShot(config: RequestConfig, response: Option<ErrorResponse>, cookie: string, again: Option<ErrorResponse>)
    returns (first: bool, second: bool)
    modifies config`csrfRetry, config`headers
    ensures first ==> !second
    ensures !old(config.csrfRetry) && IsCsrfRejection(response) && Truthy(GetCookie(cookie, CsrfCookie)) ==> first
  {
    first := OnCsrfError(config, response, true, cookie);
    if first {
      InterceptRequest(config, cookie);
      second := OnCsrfError(config, again, true, cookie);
    } else {
      second := false;
    }
  }
}
