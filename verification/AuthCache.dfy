/**
 * The token cache as its own methods leave it, called by one thread at a time (which is what the
 * lock gives the body of `auth_header` and `invalidate`), and the transport that drives it.
 * The refresh-token rules are those of TokenProtocol: the ghost `log` is the same history.
 */
module AuthCache {
  import opened Basics
  import opened TokenProtocol
  import opened TokenTheorems

  /** No request is open between two calls. */
  predicate Answered(log: seq<Request>) { forall r | r in log :: !r.outcome.Pending? }

  lemma RecordRequest(client: Client, log: seq<Request>, r: Request)
    requires Disciplined(client, log) && r.grant == GrantFor(Newest(client, log))
    ensures Disciplined(client, log + [r])
    ensures Newest(client, log + [r]) ==
            if Brings(client, r).Some? then Brings(client, r)
            else if Supersedes(client, r) then None
            else Newest(client, log)
  {
    assert (log + [r])[..|log|] == log;
  }

  class TokenCache {
    const client: Client
    const margin: int
    var token: Option<string>
    var refreshToken: Option<string>
    var expiresAt: int
    ghost var log: seq<Request>

    /** The stored refresh token is the newest usable one, and every request so far followed the rules. */
    ghost predicate Valid()
      reads this
    {
      && Answered(log) && Disciplined(client, log) && refreshToken == Newest(client, log)
      && (token.Some? ==> exists r | r in log :: r.outcome.Granted? && r.outcome.bundle.access == token.value)
    }

    constructor (client: Client, margin: int)
      ensures Valid() && this.client == client && this.margin == margin
      ensures token == None && refreshToken == None && log == []
    {
      this.client, this.margin := client, margin;
      token, refreshToken, expiresAt, log := None, None, 0, [];
    }

    predicate Usable(now: int)
      reads this
    {
      token.Some? && now < expiresAt - margin
    }

    method ApplyBundle(bundle: Bundle, now: int)
      modifies this`token, this`expiresAt, this`refreshToken
      ensures token == Some(bundle.access) && expiresAt == now + bundle.lifetime
      ensures refreshToken == if Rotated(client, bundle).Some? then Rotated(client, bundle) else old(refreshToken)
    {
      token := Some(bundle.access);
      expiresAt := now + bundle.lifetime;
      if Rotated(client, bundle).Some? {
        refreshToken := Rotated(client, bundle);
      }
    }

    /**
     * `onRefresh` and `onLogin` are what the identity provider would answer. A refresh is tried
     * first when a refresh token is held; only its refusal leads to a login. The result is the
     * last request made, and the token fields change exactly when it succeeded.
     */
    method EnsureToken(caller: Tid, onRefresh: Answer, onLogin: Answer, now: int) returns (last: Request)
      requires Valid()
      modifies this`token, this`expiresAt, this`refreshToken, this`log
      ensures Valid()
      ensures old(log) < log && log[|log| - 1] == last
      ensures old(refreshToken) == None ==> log == old(log) + [last] && last.grant == Login
      ensures old(refreshToken).Some? ==>
                log[|old(log)|] == Request(caller, Refresh(old(refreshToken).value), Parse(client, onRefresh, now))
      ensures old(refreshToken).Some? ==>
                (|log| == |old(log)| + 2 <==> Parse(client, onRefresh, now).Refused?) && |log| <= |old(log)| + 2
      ensures last.grant.Login? ==> last == Request(caller, Login, Parse(client, onLogin, now))
      ensures last.outcome.Granted? ==>
                token == Some(last.outcome.bundle.access) && expiresAt == now + last.outcome.bundle.lifetime
      ensures !last.outcome.Granted? ==> token == old(token) && expiresAt == old(expiresAt)
    {
      ghost var before := log;
      if refreshToken.Some? {
        last := Request(caller, Refresh(refreshToken.value), Parse(client, onRefresh, now));
        RecordRequest(client, log, last);
        log := log + [last];
        if last.outcome.Granted? {
          ApplyBundle(last.outcome.bundle, now);
          assert last in log;
          return;
        }
        if !last.outcome.Refused? {
          return;
        }
        refreshToken := None;
      }
      last := Request(caller, Login, Parse(client, onLogin, now));
      RecordRequest(client, log, last);
      log := log + [last];
      if last.outcome.Granted? {
        ApplyBundle(last.outcome.bundle, now);
        assert last in log;
      }
    }

    /** The token to present, or the request that failed. */
    method AuthHeader(caller: Tid, onRefresh: Answer, onLogin: Answer, now: int) returns (r: Result<string, Request>)
      requires Valid()
      modifies this`token, this`expiresAt, this`refreshToken, this`log
      ensures Valid() && old(log) <= log
      ensures old(token).Some? && now + margin < old(expiresAt) ==>
                r == Ok(old(token).value) && log == old(log) && token == old(token) && expiresAt == old(expiresAt)
      ensures !(old(token).Some? && now + margin < old(expiresAt)) ==>
                old(log) < log && var last := log[|log| - 1];
                r == if last.outcome.Granted? then Ok(last.outcome.bundle.access) else Err(last)
      ensures r.Ok? ==> token == Some(r.value)
    {
      if !Usable(now) {
        var last := EnsureToken(caller, onRefresh, onLogin, now);
        if !last.outcome.Granted? {
          return Err(last);
        }
      }
      r := Ok(token.value);
    }

    method Invalidate()
      requires Valid()
      modifies this`token, this`expiresAt
      ensures Valid() && token == None && expiresAt == 0
    {
      token := None;
      expiresAt := 0;
    }
  }

  /** What the catalog answers to a request carrying a given token. */
  type Server = (string, nat) -> nat

  /**
   * Send with a token; on 401 drop the token and send once more. `sent` lists the tokens
   * presented, `status` is the last answer; None when no token could be had.
   */
  method RequestWithRetry(cache: TokenCache, server: Server, caller: Tid,
                          onRefresh: seq<Answer>, onLogin: seq<Answer>, now: int)
    returns (sent: seq<string>, status: Option<nat>)
    requires cache.Valid() && |onRefresh| == |onLogin| == 2
    modifies cache`token, cache`expiresAt, cache`refreshToken, cache`log
    ensures cache.Valid() && old(cache.log) <= cache.log
    ensures |sent| <= 2
    ensures forall token | token in sent :: exists r | r in cache.log :: r.outcome.Granted? && r.outcome.bundle.access == token
    ensures status.Some? ==> |sent| > 0 && cache.token == Some(sent[|sent| - 1])
    ensures |sent| == 2 ==> server(sent[0], 0) == 401 && status == Some(server(sent[1], 1))
    ensures |sent| == 1 && status.Some? ==> status == Some(server(sent[0], 0)) && status != Some(401)
    ensures status == None ==> |sent| == 0 || (|sent| == 1 && server(sent[0], 0) == 401)
    ensures |sent| == 2 && NeverReissues(cache.log) ==> sent[0] != sent[1]
  {
    sent, status := [], None;
    var header := cache.AuthHeader(caller, onRefresh[0], onLogin[0], now);
    if header.Err? {
      return;
    }
    sent := [header.value];
    status := Some(server(header.value, 0));
    if status == Some(401) {
      ghost var issued := cache.log;
      ghost var first :| first in issued && first.outcome.Granted? && first.outcome.bundle.access == header.value;
      cache.Invalidate();
      status := None;
      var again := cache.AuthHeader(caller, onRefresh[1], onLogin[1], now);
      if again.Ok? {
        sent := sent + [again.value];
        status := Some(server(again.value, 1));
        ghost var i :| 0 <= i < |issued| && issued[i] == first;
        assert cache.log[i] == first;
      }
    }
  }
}
