/**
 * The daemon's HTTPS endpoint `/api/command`: a bearer token in the
 * `Authorization` header instead of the `AuthToken` frame, then the same
 * dispatcher as a TCP session, and an HTTP status derived from the reply.
 * The header value is `None` when it is absent or not visible ASCII.
 */
module Http {
  import opened Wrappers
  import opened Strings
  import opened Proto
  import opened Auth
  import opened Framing
  import opened Server

  const BearerPrefix: string := "Bearer "

  /** The `<id>:<secret>` that `authenticate` takes from the header, before validation. */
  function BearerCredentials(header: Option<string>): (r: Option<(string, string)>)
    ensures r.Some? ==>
              header.Some? && header.value == BearerPrefix + r.value.0 + ":" + r.value.1
              && ':' !in r.value.0 && r.value.0 != "" && r.value.1 != ""
    ensures header.None? || !StartsWith(header.value, BearerPrefix) ==> r.None?
  {
    match header
    case None => None
    case Some(h) =>
      match StripPrefix(h, BearerPrefix)
      case None => None
      case Some(bearer) =>
        match SplitOnce(bearer, ':')
        case None => None
        case Some((id, secret)) =>
          assert h == BearerPrefix + id + ":" + secret by {
            assert bearer == id + ":" + secret;
          }
          if id == "" || secret == "" then None else Some((id, secret))
  }

  /** A header built from a pairing whose id has no `':'` yields that id and secret. */
  lemma BearerOfPairing(id: string, secret: string)
    requires ':' !in id && id != "" && secret != ""
    ensures BearerCredentials(Some(BearerPrefix + id + ":" + secret)) == Some((id, secret))
  {
    var h := BearerPrefix + id + ":" + secret;
    assert h == BearerPrefix + (id + [':'] + secret);
    assert StripPrefix(h, BearerPrefix) == Some(id + [':'] + secret);
    SplitOnceOfJoin(id, ':', secret);
  }

  /** The prefix is case-sensitive and an empty id or secret is refused without validating. */
  lemma BearerEdgeCases()
    ensures BearerCredentials(Some("bearer a:b")).None?
    ensures BearerCredentials(Some("Bearer :b")).None?
    ensures BearerCredentials(Some("Bearer a:")).None?
    ensures BearerCredentials(Some("Bearer ab")).None?
  {
    assert !StartsWith("bearer a:b", BearerPrefix) by {
      assert "bearer a:b"[0] != BearerPrefix[0];
    }
    assert StripPrefix("Bearer :b", BearerPrefix) == Some(":b");
    SplitOnceOfJoin("", ':', "b");
    assert "" + [':'] + "b" == ":b";
    assert StripPrefix("Bearer a:", BearerPrefix) == Some("a:");
    SplitOnceOfJoin("a", ':', "");
    assert "a" + [':'] + "" == "a:";
    assert StripPrefix("Bearer ab", BearerPrefix) == Some("ab");
    assert ':' !in "ab";
  }

  /** `authenticate`: the token id iff the credentials parse and `validate` accepts them. */
  method Authenticate(store: TokenStore, header: Option<string>, now: Timestamp)
    returns (r: Option<string>)
    modifies store
    ensures BearerCredentials(header).None? ==> r.None? && store.tokens == old(store.tokens)
    ensures BearerCredentials(header).Some? ==>
              var (id, secret) := BearerCredentials(header).value;
              var i := AcceptedIndex(old(store.tokens), store.compare, store.hash, id, secret, now);
              (r.Some? <==> i.Some?)
              && (r.Some? ==> r.value == id && store.tokens == Stamp(old(store.tokens), i.value, now))
              && (r.None? ==> store.tokens == old(store.tokens))
  {
    var creds := BearerCredentials(header);
    if creds.None? {
      return None;
    }
    var (id, secret) := creds.value;
    var ok := store.Validate(id, secret, now);
    r := if ok then Some(id) else None;
  }

  /** The status line `handle_command` sends with a reply. */
  function StatusFor(resp: Response): (code: nat)
    ensures code == 200 <==> !resp.Error?
    ensures resp.Error? ==> code in {401, 403, 404, 500}
  {
    match resp
    case Error(Unauthorized) => 401
    case Error(LocalOnly) => 403
    case Error(NotFound) => 404
    case Error(Internal(_)) => 500
    case _ => 200
  }

  /** The reply `handle_command` sends, and the stores it leaves, given what `authenticate` returned. */
  function HttpCommand(c: Consts, clients: U32, s: State, tokenId: Option<string>, cmd: Command,
                       env: Env): (r: (nat, Response, State))
    ensures r.0 == StatusFor(r.1)
  {
    match tokenId
    case None => (401, Error(Unauthorized), s)
    case Some(id) =>
      var (resp, after) := DispatchSpec(c, clients, s, Session(Tcp, Some(id)), cmd, env);
      (StatusFor(resp), resp, after)
  }

  /** One request: `authenticate` (which stamps the accepted token), then `HttpCommand`. */
  function HttpRequest(c: Consts, compare: HashCompare, clients: U32, s: State,
                       header: Option<string>, cmd: Command, env: Env): (r: (nat, Response, State))
    ensures r.0 == StatusFor(r.1)
    ensures r.2.tokens != s.tokens ==>
              BearerCredentials(header).Some?
              && var i := AcceptedIndex(s.tokens, compare, c.hash, BearerCredentials(header).value.0,
                                        BearerCredentials(header).value.1, env.now);
              i.Some? && r.2.tokens == Stamp(s.tokens, i.value, env.now)
  {
    match BearerCredentials(header)
    case None => HttpCommand(c, clients, s, None, cmd, env)
    case Some((id, secret)) =>
      match AcceptedIndex(s.tokens, compare, c.hash, id, secret, env.now)
      case None => HttpCommand(c, clients, s, None, cmd, env)
      case Some(i) =>
        HttpCommand(c, clients, s.(tokens := Stamp(s.tokens, i, env.now)), Some(id), cmd, env)
  }

  /** A request is its command run on the state `authenticate` leaves, as the token id it returned. */
  lemma RequestAfterAuthentication(c: Consts, compare: HashCompare, clients: U32, s: State,
                                   header: Option<string>, cmd: Command, env: Env,
                                   tokenId: Option<string>, tokens: seq<Token>)
    requires BearerCredentials(header).None? ==> tokenId.None? && tokens == s.tokens
    requires BearerCredentials(header).Some? ==>
               var (id, secret) := BearerCredentials(header).value;
               var i := AcceptedIndex(s.tokens, compare, c.hash, id, secret, env.now);
               (tokenId.Some? <==> i.Some?)
               && (tokenId.Some? ==> tokenId.value == id && tokens == Stamp(s.tokens, i.value, env.now))
               && (tokenId.None? ==> tokens == s.tokens)
    ensures HttpRequest(c, compare, clients, s, header, cmd, env)
         == HttpCommand(c, clients, s.(tokens := tokens), tokenId, cmd, env)
  {
  }

  /** `handle_command`: authenticate, then dispatch as a TCP client, then map the reply to a status. */
  method HandleCommand(d: Daemon, header: Option<string>, cmd: Command, env: Env)
    returns (status: nat, resp: Response)
    modifies d.tokenStore, d.repoStore
    ensures (status, resp, d.Snapshot())
         == HttpRequest(d.Constants(), d.tokenStore.compare, d.clients, old(d.Snapshot()),
                        header, cmd, env)
  {
    ghost var s0 := d.Snapshot();
    var tokenId := Authenticate(d.tokenStore, header, env.now);
    RequestAfterAuthentication(d.Constants(), d.tokenStore.compare, d.clients, s0, header, cmd, env,
                               tokenId, d.tokenStore.tokens);
    ghost var s1 := d.Snapshot();
    assert s1 == s0.(tokens := d.tokenStore.tokens);
    if tokenId.None? {
      return 401, Error(Unauthorized);
    }
    var reply := d.Dispatch(cmd, Session(Tcp, tokenId), env);
    resp := reply.value;
    status := StatusFor(resp);
    assert HttpRequest(d.Constants(), d.tokenStore.compare, d.clients, s0, header, cmd, env)
          == HttpCommand(d.Constants(), d.clients, s1, Some(tokenId.value), cmd, env);
    assert (resp, d.Snapshot())
        == DispatchSpec(d.Constants(), d.clients, s1, Session(Tcp, Some(tokenId.value)), cmd, env);
  }

  /** A request without credentials the store accepts gets 401 and nothing is dispatched. */
  lemma UnauthenticatedGets401(c: Consts, compare: HashCompare, clients: U32, s: State,
                               header: Option<string>, cmd: Command, env: Env)
    requires BearerCredentials(header).None?
             || AcceptedIndex(s.tokens, compare, c.hash, BearerCredentials(header).value.0,
                              BearerCredentials(header).value.1, env.now).None?
    ensures HttpRequest(c, compare, clients, s, header, cmd, env) == (401, Error(Unauthorized), s)
  {
  }

  /** Errors map to their own statuses; every other reply is 200. */
  lemma StatusMapping()
    ensures StatusFor(Error(Unauthorized)) == 401 && StatusFor(Error(LocalOnly)) == 403
    ensures StatusFor(Error(NotFound)) == 404
    ensures forall m :: StatusFor(Error(Internal(m))) == 500
    ensures StatusFor(Pong) == 200 && StatusFor(RepoUnregistered) == 200
  {
  }

  /** An authenticated HTTP client is still a TCP client: the admin commands get 403. */
  lemma HttpAdminIsForbidden(c: Consts, clients: U32, s: State, id: string, cmd: Command, env: Env)
    requires LocalOnlyCommand(cmd)
    ensures HttpCommand(c, clients, s, Some(id), cmd, env) == (403, Error(LocalOnly), s)
  {
  }

  /**
   * Over HTTP nothing intercepts the streaming commands, so `ShellRegister`
   * and `AttachShell` reach the dispatcher's fallback and get 500 rather than
   * the 403 a TLS session's `LocalOnly` would give.
   */
  lemma HttpStreamingIsInternalError(c: Consts, clients: U32, s: State, id: string, cmd: Command,
                                     env: Env)
    requires StreamingCommand(cmd)
    ensures HttpCommand(c, clients, s, Some(id), cmd, env)
         == (500, Error(Internal("unexpected streaming command")), s)
  {
  }
}
