/**
 * The browser side of the session: the in-memory access token and user, the
 * persisted `"user"` and `"hasRefresh"` entries of `localStorage`, the auth
 * subscribers, the bearer header of outgoing requests and the
 * refresh-and-retry decision on a failed response.
 */
module ClientAuth {
  import opened Wrappers
  import opened Text
  import opened Schema
  import AuthMiddleware

  /** A subscriber function, by identity. */
  type SubscriberId = nat

  /** One call `fn(user)` made by `notifyAuth`. */
  datatype Delivery = Delivery(subscriber: SubscriberId, user: Option<SessionUser>)

  /**
   * `JSON.stringify` and `JSON.parse` for the stored user: `parse` gives
   * `None` when it throws and `Some(None)` for a falsy value.
   */
  datatype UserCodec = UserCodec(stringify: SessionUser -> string, parse: string -> Option<Option<SessionUser>>)

  /** What the model needs of JSON: a user object serialises to a non-empty text that parses back to it. */
  ghost predicate RoundTrips(codec: UserCodec) {
    forall u :: codec.stringify(u) != "" && codec.parse(codec.stringify(u)) == Some(Some(u))
  }

  /** What the refresh call answered: the `{ accessToken, user }` body, or a failure of any kind. */
  datatype RefreshReply = RefreshOk(accessToken: string, user: Option<SessionUser>) | RefreshFailed

  /** How the response interceptor settles a failed request: replay it, or reject with the original error. */
  datatype ErrorOutcome = Replay | Reject

  predicate Distinct(s: seq<SubscriberId>) {
    forall i, j :: 0 <= i < j < |s| ==> s[i] != s[j]
  }

  /** `authSubs.add(fn)`: a set in insertion order, so adding a member again changes nothing. */
  function Added(subs: seq<SubscriberId>, fn: SubscriberId): (r: seq<SubscriberId>)
    requires Distinct(subs)
    ensures Distinct(r)
    ensures forall g :: g in r <==> g in subs || g == fn
  {
    if fn in subs then subs else subs + [fn]
  }

  /** `authSubs.delete(fn)` */
  function Removed(subs: seq<SubscriberId>, fn: SubscriberId): (r: seq<SubscriberId>)
    requires Distinct(subs)
    ensures Distinct(r)
    ensures forall g :: g in r <==> g in subs && g != fn
  {
    if subs == [] then []
    else if subs[0] == fn then Removed(subs[1..], fn)
    else
      var rest := Removed(subs[1..], fn);
      assert forall k :: 1 <= k < |subs| ==> subs[k] != subs[0];
      assert subs[0] !in rest;
      var r := [subs[0]] + rest;
      assert forall i, j :: 0 < i < j < |r| ==> r[i] == rest[i - 1] && r[j] == rest[j - 1];
      r
  }

  /** The calls `notifyAuth` makes: every subscriber, in order, with the current user. */
  function Deliveries(subs: seq<SubscriberId>, user: Option<SessionUser>): (r: seq<Delivery>)
    ensures |r| == |subs|
    ensures forall i :: 0 <= i < |subs| ==> r[i] == Delivery(subs[i], user)
  {
    seq(|subs|, i requires 0 <= i < |subs| => Delivery(subs[i], user))
  }

  /** A subscriber is called exactly once per notification while subscribed, and never after unsubscribing. */
  lemma NotifiedIffSubscribed(subs: seq<SubscriberId>, fn: SubscriberId, user: Option<SessionUser>)
    requires Distinct(subs)
    ensures fn in subs ==> multiset(Deliveries(subs, user))[Delivery(fn, user)] == 1
    ensures forall d :: d in Deliveries(Removed(subs, fn), user) ==> d.subscriber != fn
  {
    if fn in subs {
      var k :| 0 <= k < |subs| && subs[k] == fn;
      DeliveredOnce(subs, k, user);
    }
  }

  lemma {:induction false} DeliveredOnce(subs: seq<SubscriberId>, k: int, user: Option<SessionUser>)
    requires Distinct(subs) && 0 <= k < |subs|
    ensures multiset(Deliveries(subs, user))[Delivery(subs[k], user)] == 1
  {
    var d := Deliveries(subs, user);
    if k == |subs| - 1 {
      var front := Deliveries(subs[..k], user);
      assert d == front + [Delivery(subs[k], user)];
      assert Delivery(subs[k], user) !in front;
    } else {
      var front := Deliveries(subs[..|subs| - 1], user);
      assert d == front + [Delivery(subs[|subs| - 1], user)];
      DeliveredOnce(subs[..|subs| - 1], k, user);
    }
  }

  /** The header the request interceptor sends: `Bearer <token>` when there is a token, the headers untouched otherwise. */
  function WithBearer(headers: map<string, string>, token: Option<string>): map<string, string> {
    if token.Some? then headers["Authorization" := "Bearer " + token.value] else headers
  }

  /** The server's `authRequired` reads back exactly the token the client attached. */
  lemma BearerReachesServer(headers: map<string, string>, token: string)
    ensures "Authorization" in WithBearer(headers, Some(token))
    ensures AuthMiddleware.BearerToken(WithBearer(headers, Some(token))["Authorization"]) == token
  {
    AuthMiddleware.BearerRoundTrip(token);
  }

  /** The requests whose 401 never starts a refresh. */
  predicate IsAuthUrl(url: string) {
    Contains(url, "/auth/login") || Contains(url, "/auth/register") || Contains(url, "/auth/refresh") || Contains(url, "/auth/logout")
  }

  /** A refresh is tried only for a 401 of a request not yet retried whose URL is not an auth URL. */
  predicate ShouldRefresh(status: Option<int>, retried: bool, url: string) {
    status == Some(401) && !retried && !IsAuthUrl(url)
  }

  /** A URL holding an auth path holds it however it is prefixed: `http://host/auth/refresh?x` still counts. */
  lemma {:induction false} AuthUrlInside(prefix: string, path: string, suffix: string)
    requires IsAuthUrl(path)
    ensures IsAuthUrl(prefix + path + suffix)
  {
    var url := prefix + path + suffix;
    forall sub | Contains(path, sub) ensures Contains(url, sub) {
      ContainsAt(path, sub);
      var i :| OccursAt(path, sub, i);
      assert url[|prefix| + i..|prefix| + i + |sub|] == path[i..i + |sub|];
      assert OccursAt(url, sub, |prefix| + i);
      ContainsAt(url, sub);
    }
  }

  /** `setAccessToken(t)`: `t || null`. */
  function TokenOf(t: string): Option<string> {
    if t == "" then None else Some(t)
  }

  /** The storage after `setUser(u)`: the serialised user, or no `"user"` entry. */
  function StoreUser(storage: map<string, string>, codec: UserCodec, u: Option<SessionUser>): map<string, string> {
    if u.Some? then storage["user" := codec.stringify(u.value)] else storage - {"user"}
  }

  /** The storage after `clearAuth`. */
  function Cleared(storage: map<string, string>): map<string, string> {
    storage - {"user", "hasRefresh"}
  }

  /** The user `bootstrapAuth` reads back: the parsed entry (null when it does not parse), `current` when there is none. */
  function CachedUser(codec: UserCodec, storage: map<string, string>, current: Option<SessionUser>): Option<SessionUser> {
    if "user" in storage && storage["user"] != "" then codec.parse(storage["user"]).GetOr(None) else current
  }

  /** `localStorage.getItem("hasRefresh") === "1"` */
  predicate HasRefresh(storage: map<string, string>) {
    "hasRefresh" in storage && storage["hasRefresh"] == "1"
  }

  /**
   * A user stored by `setUser` is what the next page load reads back; after
   * `setUser(null)` or `clearAuth` nothing is read back, and after
   * `clearAuth` the next load makes no refresh call.
   */
  lemma PersistedUserSurvivesReload(codec: UserCodec, storage: map<string, string>, u: Option<SessionUser>,
                                    current: Option<SessionUser>)
    requires RoundTrips(codec)
    ensures u.Some? ==> CachedUser(codec, StoreUser(storage, codec, u), current) == u
    ensures u.None? ==> CachedUser(codec, StoreUser(storage, codec, u), current) == current
    ensures CachedUser(codec, Cleared(storage), current) == current && !HasRefresh(Cleared(storage))
  {
    if u.Some? {
      assert codec.stringify(u.value) != "" && codec.parse(codec.stringify(u.value)) == Some(Some(u.value));
    }
  }

  /**
   * The client only ever removes the `"hasRefresh"` flag: storing a user,
   * forgetting it or clearing the session never makes a later
   * `bootstrapAuth` refresh when the flag was not already set.
   */
  lemma HasRefreshNeverSet(storage: map<string, string>, codec: UserCodec, u: Option<SessionUser>)
    ensures HasRefresh(StoreUser(storage, codec, u)) == HasRefresh(storage)
    ensures !HasRefresh(Cleared(storage))
  {
  }

  /** An outgoing request as the interceptors see it: its URL, the `_retry` mark and its headers. */
  class PendingRequest {
    var url: string
    var retry: bool
    var headers: map<string, string>

    constructor (url: string, headers: map<string, string>)
      ensures this.url == url && this.headers == headers && !retry
    {
      this.url := url;
      this.headers := headers;
      retry := false;
    }
  }

  /** The module-level state of the API client. */
  class AuthClient {
    var accessToken: Option<string>
    var user: Option<SessionUser>
    var storage: map<string, string>
    var subscribers: seq<SubscriberId>
    /** Every subscriber call made so far, in order. */
    var delivered: seq<Delivery>
    const codec: UserCodec

    /** The token is never "" (`setAccessToken` turns a falsy value into null) and the subscribers form a set. */
    ghost predicate Valid()
      reads this
    {
      accessToken != Some("") && Distinct(subscribers)
    }

    /** A page load: nothing in memory yet, `storage` as the browser kept it. */
    constructor (codec: UserCodec, storage: map<string, string>)
      ensures Valid()
      ensures this.codec == codec && this.storage == storage
      ensures accessToken == None && user == None && subscribers == [] && delivered == []
    {
      this.codec := codec;
      this.storage := storage;
      accessToken, user, subscribers, delivered := None, None, [], [];
    }

    /** `subscribeAuth(fn)`; the function it returns is `Unsubscribe(fn)`. */
    method Subscribe(fn: SubscriberId)
      requires Valid()
      modifies this`subscribers
      ensures Valid()
      ensures subscribers == Added(old(subscribers), fn)
    {
      subscribers := Added(subscribers, fn);
    }

    method Unsubscribe(fn: SubscriberId)
      requires Valid()
      modifies this`subscribers
      ensures Valid()
      ensures subscribers == Removed(old(subscribers), fn)
    {
      subscribers := Removed(subscribers, fn);
    }

    /** `notifyAuth`: calls every subscriber of a snapshot of the set with the current user. */
    method Notify()
      modifies this`delivered
      ensures delivered == old(delivered) + Deliveries(subscribers, user)
    {
      var subs := subscribers;
      for i := 0 to |subs|
        invariant delivered == old(delivered) + Deliveries(subs[..i], user)
      {
        assert Deliveries(subs[..i + 1], user) == Deliveries(subs[..i], user) + [Delivery(subs[i], user)];
        delivered := delivered + [Delivery(subs[i], user)];
      }
      assert subs[..|subs|] == subs;
    }

    method SetAccessToken(t: string)
      requires Valid()
      modifies this`accessToken
      ensures Valid()
      ensures accessToken == TokenOf(t)
    {
      accessToken := if t == "" then None else Some(t);
    }

    /** `setUser(u)`: keeps and persists the user (or forgets it), then notifies. */
    method SetUser(u: Option<SessionUser>)
      requires Valid()
      modifies this`user, this`storage, this`delivered
      ensures Valid()
      ensures user == u && storage == StoreUser(old(storage), codec, u)
      ensures delivered == old(delivered) + Deliveries(subscribers, u)
    {
      user := u;
      if u.Some? {
        storage := storage["user" := codec.stringify(u.value)];
      } else {
        storage := storage - {"user"};
      }
      Notify();
    }

    /** `clearAuth` */
    method ClearAuth()
      requires Valid()
      modifies this`accessToken, this`user, this`storage, this`delivered
      ensures Valid()
      ensures accessToken == None && user == None && storage == Cleared(old(storage))
      ensures delivered == old(delivered) + Deliveries(subscribers, None)
    {
      accessToken := None;
      user := None;
      storage := storage - {"user"};
      storage := storage - {"hasRefresh"};
      assert storage == Cleared(old(storage));
      Notify();
    }

    /** The request interceptor. */
    method AttachBearer(req: PendingRequest)
      modifies req`headers
      ensures req.headers == WithBearer(old(req.headers), accessToken)
    {
      if accessToken.Some? {
        req.headers := req.headers["Authorization" := "Bearer " + accessToken.value];
      }
    }

    /** Takes the body of a successful refresh: the token, then the user. */
    method Adopt(reply: RefreshReply)
      requires Valid() && reply.RefreshOk?
      modifies this`accessToken, this`user, this`storage, this`delivered
      ensures Valid()
      ensures accessToken == TokenOf(reply.accessToken) && user == reply.user
      ensures storage == StoreUser(old(storage), codec, reply.user)
      ensures delivered == old(delivered) + Deliveries(subscribers, reply.user)
    {
      SetAccessToken(reply.accessToken);
      SetUser(reply.user);
    }

    /**
     * The response interceptor on a failed request with HTTP status
     * `status` (`None` when no response came back). `reply` is what the
     * refresh call would answer; `refreshPosted` says whether it was made.
     */
    method OnResponseError(req: PendingRequest, status: Option<int>, reply: RefreshReply)
      returns (outcome: ErrorOutcome, refreshPosted: bool)
      requires Valid()
      modifies this, req
      ensures Valid()
      ensures refreshPosted == ShouldRefresh(status, old(req.retry), old(req.url))
      ensures !refreshPosted ==> outcome == Reject && unchanged(this) && unchanged(req)
      ensures refreshPosted ==> req.retry && req.url == old(req.url) && subscribers == old(subscribers)
      ensures refreshPosted && reply.RefreshOk? ==>
        && outcome == Replay
        && accessToken == TokenOf(reply.accessToken) && user == reply.user
        && storage == StoreUser(old(storage), codec, reply.user)
        && req.headers == old(req.headers)["Authorization" := "Bearer " + reply.accessToken]
        && delivered == old(delivered) + Deliveries(subscribers, reply.user)
      ensures refreshPosted && reply.RefreshFailed? ==>
        && outcome == Reject
        && accessToken == None && user == None && storage == Cleared(old(storage))
        && req.headers == old(req.headers)
        && delivered == old(delivered) + Deliveries(subscribers, None)
    {
      refreshPosted := status == Some(401) && !req.retry && !IsAuthUrl(req.url);
      outcome := Reject;
      if refreshPosted {
        req.retry := true;
        if reply.RefreshOk? {
          Adopt(reply);
          req.headers := req.headers["Authorization" := "Bearer " + reply.accessToken];
          outcome := Replay;
        } else {
          ClearAuth();
        }
      }
    }

    /**
     * `bootstrapAuth`: reads the cached user back, then refreshes only when
     * the `"hasRefresh"` flag is `"1"`.
     */
    method BootstrapAuth(reply: RefreshReply) returns (refreshPosted: bool)
      requires Valid()
      modifies this`accessToken, this`user, this`storage, this`delivered
      ensures Valid()
      ensures refreshPosted == HasRefresh(old(storage))
      ensures !refreshPosted ==>
        && user == CachedUser(codec, old(storage), old(user))
        && accessToken == old(accessToken) && storage == old(storage) && delivered == old(delivered)
      ensures refreshPosted && reply.RefreshOk? ==>
        && accessToken == TokenOf(reply.accessToken) && user == reply.user
        && storage == StoreUser(old(storage), codec, reply.user)
        && delivered == old(delivered) + Deliveries(subscribers, reply.user)
      ensures refreshPosted && reply.RefreshFailed? ==>
        && accessToken == None && user == None && storage == Cleared(old(storage))
        && delivered == old(delivered) + Deliveries(subscribers, None)
    {
      if "user" in storage && storage["user"] != "" {
        var parsed := codec.parse(storage["user"]);
        user := if parsed.Some? then parsed.value else None;
      }
      refreshPosted := "hasRefresh" in storage && storage["hasRefresh"] == "1";
      if !refreshPosted {
        return;
      }
      if reply.RefreshOk? {
        Adopt(reply);
      } else {
        ClearAuth();
      }
    }
  }

  /**
   * A request is retried at most once: after the interceptor has tried a
   * refresh for it, a second failure of the replayed request is rejected
   * without another refresh call.
   */
  method RetryAtMostOnce(client: AuthClient, req: PendingRequest, first: RefreshReply, second: RefreshReply)
    returns (secondPosted: bool)
    requires client.Valid()
    modifies client, req
    ensures !secondPosted
  {
    var outcome, posted := client.OnResponseError(req, Some(401), first);
    if posted {
      outcome, secondPosted := client.OnResponseError(req, Some(401), second);
    } else {
      secondPosted := false;
    }
  }
}
