/**
 * The session provider: the session state (`user`, `initializing`, `authLoading`), the
 * actions that drive it, and the response interceptor that answers a 401 with a single
 * `/refresh` call shared by every request that fails while it is in flight.
 *
 * Network calls are not made here: each action receives the outcome of the calls it
 * awaits as a parameter, and the refresh is split into the event that starts it
 * (`On401`) and the two events that settle it (`RefreshSucceeded`, `RefreshFailed`).
 */
module Auth {
  import opened Options
  import opened Strings
  import opened Http

  const LoginFallback := "Login failed"
  const RegisterFallback := "Registration failed"

  /** What `login` and `register` resolve to: `{success: true}` or `{success: false, error}`. */
  datatype AuthResult = Success | Failure(error: string)

  /** What the 401 interceptor does with a failed request. */
  datatype Action401 =
    | PassThrough    // `Promise.reject(error)`: the original error goes on unchanged
    | Queued         // a refresh is in flight: wait for it in `queue`
    | RefreshIssued  // this request leads: it is marked and `/refresh` is called

  /** How a request waiting on the refresh is settled: replayed, or rejected with the refresh's error. */
  datatype Settlement = Replay(config: RequestConfig) | Rejected(config: RequestConfig, error: HttpFailure)

  /** The user a `/me` call leaves in the session: `res.data?.user || null`, or null when the call fails. */
  function MeUser(me: Outcome): (r: Option<User>)
    ensures me.Err? ==> r.None?
    ensures me.Ok? ==> r == me.body.user
  {
    if me.Ok? then me.body.user else None
  }

  /**
   * The message a failed `login` or `register` reports:
   * `err.response?.data?.error || err.response?.data?.message || fallback`.
   */
  function ErrorMessage(failure: HttpFailure, fallback: string): (r: string)
    ensures fallback != "" ==> r != ""
    ensures failure.response.Some? && Truthy(failure.response.value.data.error) ==>
              Some(r) == failure.response.value.data.error
    ensures failure.response.Some? && !Truthy(failure.response.value.data.error) && Truthy(failure.response.value.data.message) ==>
              Some(r) == failure.response.value.data.message
    ensures r != fallback ==>
              && failure.response.Some?
              && (Some(r) == failure.response.value.data.error || Some(r) == failure.response.value.data.message)
  {
    match failure.response
    case None => fallback
    case Some(resp) =>
      if Truthy(resp.data.error) then resp.data.error.value
      else if Truthy(resp.data.message) then resp.data.message.value
      else fallback
  }

  /** `original.url?.includes("/me") || original.url?.includes("/refresh")`. */
  predicate IsAuthEndpoint(url: Option<string>)
    ensures IsAuthEndpoint(url) <==>
      url.Some? && ((exists j :: Occurs(url.value, "/me", j)) || (exists j :: Occurs(url.value, "/refresh", j)))
  {
    url.Some? && (Contains(url.value, "/me") || Contains(url.value, "/refresh"))
  }

  /**
   * The endpoint test is a substring test: any URL with `/me` anywhere in it is exempt
   * from the refresh, `/members` among them.
   */
  lemma MembersUrlIsExempt(url: string, j: int)
    requires Occurs(url, "/me", j)
    ensures IsAuthEndpoint(Some(url))
    ensures IsAuthEndpoint(Some("/members"))
  {
    assert Occurs("/members", "/me", 0);
  }

  /** The 401 interceptor's admission test: a 401, on a request not yet marked, not on an auth endpoint, with a user signed in. */
  predicate RefreshApplies(failure: HttpFailure, retried: bool, url: Option<string>, user: Option<User>)
    ensures retried || IsAuthEndpoint(url) || user.None? ==> !RefreshApplies(failure, retried, url, user)
    ensures failure.response.None? || failure.response.value.status != 401 ==> !RefreshApplies(failure, retried, url, user)
  {
    && failure.response.Some?
    && failure.response.value.status == 401
    && !retried
    && !IsAuthEndpoint(url)
    && user.Some?
  }

  /** Every waiter is settled, in order, the same way: all replayed, or all rejected with `error`. */
  ghost predicate SettledAlike(settled: seq<Settlement>, waiters: seq<RequestConfig>, error: Option<HttpFailure>) {
    && |settled| == |waiters|
    && forall i :: 0 <= i < |settled| ==>
         settled[i] == (if error.None? then Replay(waiters[i]) else Rejected(waiters[i], error.value))
  }

  class AuthProvider {
    var user: Option<User>
    var initializing: bool
    var authLoading: bool

    // The 401 interceptor's state: whether a refresh is in flight, the requests waiting
    // on it, and the request that started it (held by the suspended handler).
    var refreshing: bool
    var queue: seq<RequestConfig>
    var leader: Option<RequestConfig>

    ghost predicate Valid()
      reads this
    {
      && (refreshing <==> leader.Some?)
      && (!refreshing ==> queue == [])
    }

    constructor ()
      ensures Valid()
      ensures user == None && initializing && !authLoading
      ensures !refreshing && queue == [] && leader == None
    {
      user := None;
      initializing := true;
      authLoading := false;
      refreshing := false;
      queue := [];
      leader := None;
    }

    /** `fetchCsrfToken`: true when `GET /csrf-token` succeeded, false otherwise; it never throws. */
    method FetchCsrfToken(get: Outcome) returns (ok: bool)
      ensures ok <==> get.Ok?
    {
      match get
      case Ok(_) => ok := true;
      case Err(_) => ok := false;
    }

    /**
     * `initAuth`: fetch a CSRF token (its result is ignored), then ask `/me`. Whatever
     * happens, initialization ends; the user is the one `/me` reports, or none.
     */
    method InitAuth(csrf: Outcome, me: Outcome)
      modifies this`user, this`initializing
      ensures !initializing
      ensures user == MeUser(me)
      ensures me.Err? ==> user == None
    {
      var _ := FetchCsrfToken(csrf);
      user := MeUser(me);
      initializing := false;
    }

    /** The shared body of `login` and `register`: it never throws and always ends with `authLoading` false. */
    method Submit(csrf: Outcome, post: Outcome, fallback: string) returns (result: AuthResult)
      modifies this`user, this`authLoading
      ensures !authLoading
      ensures result.Success? <==> post.Ok?
      ensures post.Ok? ==> user == post.body.user
      ensures post.Err? ==> user == old(user) && result == Failure(ErrorMessage(post.failure, fallback))
    {
      authLoading := true;
      var _ := FetchCsrfToken(csrf);
      match post {
        case Ok(body) =>
          user := body.user;
          result := Success;
        case Err(failure) =>
          result := Failure(ErrorMessage(failure, fallback));
      }
      authLoading := false;
    }

    /** `login`: `POST /login` after a CSRF fetch. */
    method Login(csrf: Outcome, post: Outcome) returns (result: AuthResult)
      modifies this`user, this`authLoading
      ensures !authLoading
      ensures result.Success? <==> post.Ok?
      ensures post.Ok? ==> user == post.body.user
      ensures post.Err? ==> user == old(user) && result == Failure(ErrorMessage(post.failure, LoginFallback))
      ensures result.Failure? ==> result.error != ""
    {
      result := Submit(csrf, post, LoginFallback);
    }

    /** `register`: `POST /register` after a CSRF fetch. */
    method Register(csrf: Outcome, post: Outcome) returns (result: AuthResult)
      modifies this`user, this`authLoading
      ensures !authLoading
      ensures result.Success? <==> post.Ok?
      ensures post.Ok? ==> user == post.body.user
      ensures post.Err? ==> user == old(user) && result == Failure(ErrorMessage(post.failure, RegisterFallback))
      ensures result.Failure? ==> result.error != ""
    {
      result := Submit(csrf, post, RegisterFallback);
    }

    /** `logout`: the user is cleared whether or not `POST /logout` succeeds. */
    method Logout(post: Outcome)
      modifies this`user, this`authLoading
      ensures user == None && !authLoading
    {
      authLoading := true;
      user := None;
      authLoading := false;
    }

    /** `refreshUser`: re-ask `/me`; a failure silently clears the user. */
    method RefreshUser(me: Outcome)
      modifies this`user
      ensures user == MeUser(me)
      ensures me.Err? ==> user == None
    {
      user := MeUser(me);
    }

    /**
     * The 401 interceptor, on a failed request `config`. A failure it does not admit passes
     * through. An admitted one waits in `queue` while a refresh is in flight, and starts the
     * refresh otherwise: the request is marked `_retry` and becomes the leader.
     */
    method On401(config: RequestConfig, failure: HttpFailure) returns (action: Action401)
      requires Valid()
      modifies this`queue, this`refreshing, this`leader, config`retry
      ensures Valid()
      ensures action == PassThrough <==> !RefreshApplies(failure, old(config.retry), config.url, user)
      ensures action == Queued <==> RefreshApplies(failure, old(config.retry), config.url, user) && old(refreshing)
      ensures action == RefreshIssued <==> RefreshApplies(failure, old(config.retry), config.url, user) && !old(refreshing)
      ensures action == PassThrough ==>
                queue == old(queue) && refreshing == old(refreshing) && leader == old(leader) && config.retry == old(config.retry)
      ensures action == Queued ==>
                queue == old(queue) + [config] && refreshing && leader == old(leader) && config.retry == old(config.retry)
      ensures action == RefreshIssued ==>
                queue == [] && refreshing && leader == Some(config) && config.retry
    {
      if RefreshApplies(failure, config.retry, config.url, user) {
        if refreshing {
          queue := queue + [config];
          return Queued;
        }
        config.retry := true;
        refreshing := true;
        leader := Some(config);
        return RefreshIssued;
      }
      return PassThrough;
    }

    /** `processQueue`: settle every waiter the same way, then empty the queue. */
    method ProcessQueue(error: Option<HttpFailure>) returns (settled: seq<Settlement>)
      modifies this`queue
      ensures SettledAlike(settled, old(queue), error)
      ensures queue == []
    {
      settled := [];
      for i := 0 to |queue|
        invariant SettledAlike(settled, queue[..i], error)
      {
        var waiter := queue[i];
        settled := settled + [if error.None? then Replay(waiter) else Rejected(waiter, error.value)];
      }
      queue := [];
    }

    /** `/refresh` succeeded: every waiter and the leader are replayed, and the refresh is over. */
    method RefreshSucceeded() returns (settled: seq<Settlement>, lead: Settlement)
      requires Valid() && refreshing
      modifies this`queue, this`refreshing, this`leader
      ensures Valid() && !refreshing && leader == None && queue == []
      ensures SettledAlike(settled, old(queue), None)
      ensures lead == Replay(old(leader).value)
    {
      settled := ProcessQueue(None);
      lead := Replay(leader.value);
      refreshing := false;
      leader := None;
    }

    /**
     * `/refresh` failed with `err`: every waiter and the leader are rejected with that
     * error, the user is signed out, and the refresh is over.
     */
    method RefreshFailed(err: HttpFailure) returns (settled: seq<Settlement>, lead: Settlement)
      requires Valid() && refreshing
      modifies this`queue, this`refreshing, this`leader, this`user
      ensures Valid() && !refreshing && leader == None && queue == []
      ensures user == None
      ensures SettledAlike(settled, old(queue), Some(err))
      ensures lead == Rejected(old(leader).value, err)
    {
      settled := ProcessQueue(Some(err));
      user := None;
      lead := Rejected(leader.value, err);
      refreshing := false;
      leader := None;
    }
  }

  /**
   * Requests that all fail with 401 while a user is signed in and no refresh is in flight:
   * exactly one `/refresh` is issued, by the first of them, and when it settles every
   * other one is settled the same way as the leader.
   */
  method SingleFlight(p: AuthProvider, configs: seq<RequestConfig>, failure: HttpFailure, refreshOk: bool, err: HttpFailure)
    returns (issued: nat, settled: seq<Settlement>, lead: Settlement)
    requires p.Valid() && !p.refreshing && p.user.Some?
    requires |configs| > 0
    requires failure.response.Some? && failure.response.value.status == 401
    requires forall i :: 0 <= i < |configs| ==> !configs[i].retry && !IsAuthEndpoint(configs[i].url)
    requires forall i, j :: 0 <= i < j < |configs| ==> configs[i] != configs[j]
    modifies p, configs
    ensures issued == 1
    ensures lead == (if refreshOk then Replay(configs[0]) else Rejected(configs[0], err))
    ensures SettledAlike(settled, configs[1..], if refreshOk then None else Some(err))
    ensures p.Valid() && !p.refreshing
    ensures p.user == (if refreshOk then old(p.user) else None)
    ensures p.initializing == old(p.initializing) && p.authLoading == old(p.authLoading)
    ensures configs[0].retry
    ensures forall j :: 1 <= j < |configs| ==> configs[j].retry == old(configs[j].retry)
  {
    issued := 0;
    for i := 0 to |configs|
      invariant p.Valid() && p.user == old(p.user)
      invariant issued == (if i == 0 then 0 else 1)
      invariant i == 0 ==> !p.refreshing
      invariant i > 0 ==> p.refreshing && p.leader == Some(configs[0]) && p.queue == configs[1..i]
      invariant p.initializing == old(p.initializing) && p.authLoading == old(p.authLoading)
      invariant i > 0 <==> configs[0].retry
      invariant forall j :: 1 <= j < |configs| ==> !configs[j].retry
    {
      var action := p.On401(configs[i], failure);
      if action == RefreshIssued {
        issued := issued + 1;
      }
    }
    if refreshOk {
      settled, lead := p.RefreshSucceeded();
    } else {
      settled, lead := p.RefreshFailed(err);
    }
  }
}
