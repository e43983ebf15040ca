/** The client's authentication helpers: the token and user kept in
    localStorage (and the auth cookie), requests that carry the token, the
    stats update sent after a game, and the token expiry test. The server's
    reply to a request is a parameter of the operation that sends it. */
module AuthUtils {
  import opened JsText

  /** The user object kept under "chess_user"; an absent property is None. */
  datatype UserData = UserData(
    id: Option<int>, username: Option<string>,
    totalGames: Option<int>, wins: Option<int>, losses: Option<int>, draws: Option<int>)

  /** What the "chess_user" slot holds: a stringified user, or text that
      JSON.parse rejects or that parses to null. */
  datatype UserSlot = Json(user: UserData) | Unparsable

  /** The four counters updateUserStats sends. */
  datatype StatsBody = StatsBody(totalGames: int, wins: int, losses: int, draws: int)

  /** The request fetch is given: the caller's options spread first, then
      the merged headers and credentials "include". */
  datatype Request = Request(url: string, verb: Option<string>, body: Option<StatsBody>,
                             headers: map<string, string>, credentials: string)

  datatype FetchError = NoToken | AuthExpired

  /** The outcome of the stats request as the server gives it: the status
      and the `user` of the JSON body. */
  datatype Reply = Reply(status: int, user: UserData)

  /** Truthiness of an optional number: null, undefined and 0 are falsy. */
  predicate TruthyInt(n: Option<int>) {
    n.Some? && n.value != 0
  }

  /** `(n || 0) + (hit ? 1 : 0)`. */
  function Bump(n: Option<int>, hit: bool): (r: int)
    ensures r == n.GetOr(0) + (if hit then 1 else 0)
  {
    (if TruthyInt(n) then n.value else 0) + (if hit then 1 else 0)
  }

  /** The counters after one more game with result `gameResult`. */
  function UpdatedStats(user: UserData, gameResult: string): (s: StatsBody)
    ensures s.totalGames == user.totalGames.GetOr(0) + 1
    ensures s.wins == user.wins.GetOr(0) + (if gameResult == "win" then 1 else 0)
    ensures s.losses == user.losses.GetOr(0) + (if gameResult == "loss" then 1 else 0)
    ensures s.draws == user.draws.GetOr(0) + (if gameResult == "draw" then 1 else 0)
  {
    StatsBody(Bump(user.totalGames, true), Bump(user.wins, gameResult == "win"),
              Bump(user.losses, gameResult == "loss"), Bump(user.draws, gameResult == "draw"))
  }

  /** Exactly one of wins, losses and draws goes up, by one, for "win",
      "loss" and "draw", and none for any other result; the game count
      always goes up by one. */
  lemma UpdatedStatsCountsOneResult(user: UserData, gameResult: string)
    ensures var s := UpdatedStats(user, gameResult);
      var before := user.wins.GetOr(0) + user.losses.GetOr(0) + user.draws.GetOr(0);
      && s.totalGames == user.totalGames.GetOr(0) + 1
      && (s.wins + s.losses + s.draws == before + 1 <==> gameResult in {"win", "loss", "draw"})
      && (gameResult !in {"win", "loss", "draw"} ==> s.wins + s.losses + s.draws == before)
  {
  }

  /** `{...user, ...data.user}`: every property the reply has wins. */
  function MergeUser(user: UserData, reply: UserData): (m: UserData)
    ensures m.id == (if reply.id.Some? then reply.id else user.id)
    ensures m.username == (if reply.username.Some? then reply.username else user.username)
    ensures m.totalGames == (if reply.totalGames.Some? then reply.totalGames else user.totalGames)
    ensures m.wins == (if reply.wins.Some? then reply.wins else user.wins)
    ensures m.losses == (if reply.losses.Some? then reply.losses else user.losses)
    ensures m.draws == (if reply.draws.Some? then reply.draws else user.draws)
  {
    UserData(
      if reply.id.Some? then reply.id else user.id,
      if reply.username.Some? then reply.username else user.username,
      if reply.totalGames.Some? then reply.totalGames else user.totalGames,
      if reply.wins.Some? then reply.wins else user.wins,
      if reply.losses.Some? then reply.losses else user.losses,
      if reply.draws.Some? then reply.draws else user.draws)
  }

  /** Spreading a reply that has every property gives the reply, and
      spreading an empty one changes nothing. */
  lemma MergeUserExtremes(user: UserData, reply: UserData)
    ensures (reply.id.Some? && reply.username.Some? && reply.totalGames.Some? && reply.wins.Some?
             && reply.losses.Some? && reply.draws.Some?) ==> MergeUser(user, reply) == reply
    ensures MergeUser(user, UserData(None, None, None, None, None, None)) == user
  {
  }

  /** The decoded middle segment of a JWT: undecodable, or a payload whose
      `exp` may be missing. */
  datatype Decoded = Undecodable | Payload(exp: Option<int>)

  /** isTokenExpired: a missing token or one whose payload does not decode
      is expired; otherwise `exp < now`, which is false when `exp` is
      missing (undefined < n). `decode` stands for the atob/JSON.parse of
      the token's second segment, `now` for floor(Date.now() / 1000). */
  function IsTokenExpired(token: Option<string>, decode: string -> Decoded, now: int): (expired: bool)
    ensures !Truthy(token) ==> expired
    ensures Truthy(token) && decode(token.value).Undecodable? ==> expired
    ensures Truthy(token) && decode(token.value).Payload? ==>
      (expired <==> decode(token.value).exp.Some? && decode(token.value).exp.value < now)
  {
    if !Truthy(token) then true
    else match decode(token.value)
      case Undecodable => true
      case Payload(exp) => exp.Some? && exp.value < now
  }

  /** A token that decodes with an expiry stays unexpired until that second
      and is expired from the next one on. */
  lemma TokenExpiryIsMonotone(token: string, decode: string -> Decoded, t1: int, t2: int)
    requires token != "" && t1 <= t2
    ensures IsTokenExpired(Some(token), decode, t1) ==> IsTokenExpired(Some(token), decode, t2)
  {
  }

  const AuthStorageKey := "chess_token"
  const UserStorageKey := "chess_user"

  /** localStorage's two slots, the chess_auth cookie, and every request sent. */
  class AuthStore {
    var token: Option<string>
    var userSlot: Option<UserSlot>
    var cookie: Option<string>
    var requests: seq<Request>

    constructor(token0: Option<string>, slot0: Option<UserSlot>)
      ensures token == token0 && userSlot == slot0 && cookie.None? && requests == []
    {
      token := token0;
      userSlot := slot0;
      cookie := None;
      requests := [];
    }

    /** getUser(): the parsed user, or null when the slot is empty or does not parse. */
    function GetUser(): (u: Option<UserData>)
      reads this
      ensures u.Some? <==> userSlot.Some? && userSlot.value.Json?
      ensures u.Some? ==> u.value == userSlot.value.user
    {
      if userSlot.Some? && userSlot.value.Json? then Some(userSlot.value.user) else None
    }

    /** isAuthenticated(): `!!(token && user)`. */
    function IsAuthenticated(): (b: bool)
      reads this
      ensures b <==> Truthy(token) && GetUser().Some?
    {
      Truthy(token) && GetUser().Some?
    }

    /** setAuthData(token, user): stores both and sets the cookie. */
    method SetAuthData(t: string, user: UserData)
      modifies this
      ensures token == Some(t) && userSlot == Some(Json(user)) && cookie == Some(t)
      ensures requests == old(requests)
      ensures t != "" ==> IsAuthenticated() && GetUser() == Some(user)
    {
      token := Some(t);
      userSlot := Some(Json(user));
      cookie := Some(t);
    }

    /** clearAuthData(): removes both slots and expires the cookie. */
    method ClearAuthData()
      modifies this
      ensures token.None? && userSlot.None? && cookie.None?
      ensures requests == old(requests)
      ensures !IsAuthenticated() && GetUser().None?
    {
      token := None;
      userSlot := None;
      cookie := None;
    }

    /** authenticatedFetch(url, options): without a token it throws before
        sending anything; otherwise it sends the request with the default
        headers under the caller's, and on a 401 or 403 reply it clears the
        stored auth data and throws. */
    method AuthenticatedFetch(url: string, verb: Option<string>, body: Option<StatsBody>,
                              headers: map<string, string>, status: int)
      returns (r: Result<int, FetchError>)
      modifies this
      ensures !Truthy(old(token)) ==>
        r == Err(NoToken) && requests == old(requests)
        && token == old(token) && userSlot == old(userSlot) && cookie == old(cookie)
      ensures Truthy(old(token)) ==>
        var defaults := map["Content-Type" := "application/json", "Authorization" := "Bearer " + old(token).value];
        requests == old(requests) + [Request(url, verb, body, defaults + headers, "include")]
      ensures Truthy(old(token)) && (status == 401 || status == 403) ==>
        r == Err(AuthExpired) && token.None? && userSlot.None? && cookie.None?
      ensures Truthy(old(token)) && status != 401 && status != 403 ==>
        r == Ok(status) && token == old(token) && userSlot == old(userSlot) && cookie == old(cookie)
    {
      if !Truthy(token) {
        return Err(NoToken);
      }
      var defaults := map["Content-Type" := "application/json", "Authorization" := "Bearer " + token.value];
      requests := requests + [Request(url, verb, body, defaults + headers, "include")];
      if status == 401 || status == 403 {
        ClearAuthData();
        return Err(AuthExpired);
      }
      r := Ok(status);
    }

    /** updateUserStats(gameResult): needs a stored user with a truthy id;
        sends the updated counters; on a 2xx reply stores and returns the
        user with the reply's properties spread over it; every failure
        (no user, no token, 401/403, other status) returns null. */
    method UpdateUserStats(serverUri: string, gameResult: string, reply: Reply) returns (r: Option<UserData>)
      modifies this
      ensures old(GetUser()).None? || !TruthyInt(old(GetUser()).value.id) ==>
        r.None? && requests == old(requests) && token == old(token) && userSlot == old(userSlot) && cookie == old(cookie)
      ensures old(GetUser()).Some? && TruthyInt(old(GetUser()).value.id) && !Truthy(old(token)) ==>
        r.None? && requests == old(requests) && token == old(token) && userSlot == old(userSlot) && cookie == old(cookie)
      ensures (old(GetUser()).Some? && TruthyInt(old(GetUser()).value.id) && Truthy(old(token))
               && (reply.status == 401 || reply.status == 403)) ==>
        token.None? && userSlot.None? && cookie.None?
      ensures (old(GetUser()).Some? && TruthyInt(old(GetUser()).value.id) && Truthy(old(token))
               && reply.status != 401 && reply.status != 403 && !(200 <= reply.status <= 299)) ==>
        token == old(token) && userSlot == old(userSlot) && cookie == old(cookie)
      ensures old(GetUser()).Some? && TruthyInt(old(GetUser()).value.id) && Truthy(old(token)) ==>
        requests == old(requests) + [Request(serverUri + "/api/auth/users/stats", Some("PUT"),
          Some(UpdatedStats(old(GetUser()).value, gameResult)),
          map["Content-Type" := "application/json", "Authorization" := "Bearer " + old(token).value], "include")]
      ensures r.Some? <==>
        old(GetUser()).Some? && TruthyInt(old(GetUser()).value.id) && Truthy(old(token))
        && 200 <= reply.status <= 299
      ensures r.Some? ==>
        r.value == MergeUser(old(GetUser()).value, reply.user)
        && userSlot == Some(Json(r.value)) && token == old(token) && cookie == old(cookie)
    {
      var user := GetUser();
      if user.None? || !TruthyInt(user.value.id) {
        return None;
      }
      var stats := UpdatedStats(user.value, gameResult);
      if Truthy(token) {
        var defaults := map["Content-Type" := "application/json", "Authorization" := "Bearer " + token.value];
        assert defaults + map[] == defaults;
      }
      var response := AuthenticatedFetch(serverUri + "/api/auth/users/stats", Some("PUT"), Some(stats), map[], reply.status);
      if response.Err? {
        return None;
      }
      if 200 <= response.value <= 299 {
        var updated := MergeUser(user.value, reply.user);
        userSlot := Some(Json(updated));
        return Some(updated);
      }
      r := None;
    }

    /** logout(): posts to the logout route, ignoring any failure, then
        always clears the stored auth data. */
    method Logout(serverUri: string, status: int)
      modifies this
      ensures token.None? && userSlot.None? && cookie.None? && !IsAuthenticated()
      ensures Truthy(old(token)) ==>
        requests == old(requests) + [Request(serverUri + "/api/auth/logout", Some("POST"), None,
          map["Content-Type" := "application/json", "Authorization" := "Bearer " + old(token).value], "include")]
      ensures !Truthy(old(token)) ==> requests == old(requests)
    {
      if Truthy(token) {
        var defaults := map["Content-Type" := "application/json", "Authorization" := "Bearer " + token.value];
        assert defaults + map[] == defaults;
      }
      var response := AuthenticatedFetch(serverUri + "/api/auth/logout", Some("POST"), None, map[], status);
      ClearAuthData();
    }

    /** refreshUserData(): on a 2xx reply from /api/auth/me stores and
        returns the reply's user; otherwise returns nothing. */
    method RefreshUserData(serverUri: string, reply: Reply) returns (r: Option<UserData>)
      modifies this
      ensures r.Some? <==> Truthy(old(token)) && 200 <= reply.status <= 299
      ensures r.Some? ==> r.value == reply.user && userSlot == Some(Json(reply.user)) && token == old(token)
      ensures !Truthy(old(token)) ==>
        requests == old(requests) && token == old(token) && userSlot == old(userSlot) && cookie == old(cookie)
      ensures Truthy(old(token)) ==>
        requests == old(requests) + [Request(serverUri + "/api/auth/me", None, None,
          map["Content-Type" := "application/json", "Authorization" := "Bearer " + old(token).value], "include")]
      ensures Truthy(old(token)) && (reply.status == 401 || reply.status == 403) ==>
        token.None? && userSlot.None? && cookie.None?
      ensures Truthy(old(token)) && reply.status != 401 && reply.status != 403 && !(200 <= reply.status <= 299) ==>
        token == old(token) && userSlot == old(userSlot) && cookie == old(cookie)
      ensures r.Some? ==> cookie == old(cookie)
    {
      if Truthy(token) {
        var defaults := map["Content-Type" := "application/json", "Authorization" := "Bearer " + token.value];
        assert defaults + map[] == defaults;
      }
      var response := AuthenticatedFetch(serverUri + "/api/auth/me", None, None, map[], reply.status);
      if response.Ok? && 200 <= response.value <= 299 {
        userSlot := Some(Json(reply.user));
        return Some(reply.user);
      }
      r := None;
    }
  }

  /** Caller headers override the defaults; defaults the caller does not
      set stay. */
  lemma CallerHeadersWin(tok: string, headers: map<string, string>, name: string)
    ensures var merged := map["Content-Type" := "application/json", "Authorization" := "Bearer " + tok] + headers;
      && (name in headers ==> merged[name] == headers[name])
      && ("Authorization" !in headers ==> merged["Authorization"] == "Bearer " + tok)
      && ("Content-Type" !in headers ==> merged["Content-Type"] == "application/json")
  {
  }
}
