/**
 * The per-connection task of the daemon's TLS listener (`serve_tcp`) and the
 * certificate fingerprint it publishes. After the TLS handshake (not
 * modelled) the first frame must be an `AuthToken`; a token the store
 * accepts is answered `Pong` and the connection becomes a TCP session, any
 * other is answered `Unauthorized` once and dropped.
 */
module Tcp {
  import opened Wrappers
  import opened Hex
  import opened Proto
  import opened Framing
  import opened Auth
  import opened Server

  /** The pre-command exchange: the first frame (None when it cannot be read), the clock, and whether the reply is written. */
  datatype Handshake = Handshake(auth: Option<AuthToken>, now: Timestamp, replyDelivered: bool)

  datatype TcpOutcome =
      /** the first frame could not be read: dropped without a reply */
    | NoAuthFrame
      /** the token was refused: one `Unauthorized`, then dropped */
    | Rejected
      /** writing `Pong` failed: dropped before any command */
    | PongFailed
      /** the session ran and ended this way */
    | Served(ending: Ending)

  /**
   * One TLS connection: the replies written, how it ended, and the stores it
   * leaves. `clients` is the counter when the connection is accepted; the
   * session sees it one higher.
   */
  function TcpConnection(c: Consts, compare: HashCompare, clients: U32, s: State, hs: Handshake,
                         inbox: seq<Incoming>): (r: (seq<Response>, TcpOutcome, State))
    ensures r.1 == NoAuthFrame <==> hs.auth.None?
    ensures hs.auth.Some? ==>
              ((r.1.Served? || r.1 == PongFailed)
               <==> AcceptedIndex(s.tokens, compare, c.hash, hs.auth.value.tokenId,
                                  hs.auth.value.tokenSecret, hs.now).Some?)
    ensures r.1.Served? <==> |r.0| > 0 && r.0[0] == Pong
    ensures !r.1.Served? ==> r.0 == [] || r.0 == [Error(Unauthorized)]
  {
    match hs.auth
    case None => ([], NoAuthFrame, s)
    case Some(auth) =>
      match AcceptedIndex(s.tokens, compare, c.hash, auth.tokenId, auth.tokenSecret, hs.now)
      case None => (if hs.replyDelivered then [Error(Unauthorized)] else [], Rejected, s)
      case Some(i) =>
        var stamped := s.(tokens := Stamp(s.tokens, i, hs.now));
        if !hs.replyDelivered then ([], PongFailed, stamped)
        else
          var (sent, ending, after) :=
            Serve(c, (clients + 1) % U32Modulus, stamped, Session(Tcp, Some(auth.tokenId)), inbox);
          ([Pong] + sent, Served(ending), after)
  }

  /**
   * The spawned task of `serve_tcp`: validate under the store lock, reply,
   * and run the session between `increment_clients` and `decrement_clients`.
   */
  method ServeTcpConnection(d: Daemon, hs: Handshake, inbox: seq<Incoming>)
    returns (sent: seq<Response>, outcome: TcpOutcome)
    modifies d, d.tokenStore, d.repoStore
    ensures d.clients == old(d.clients)
    ensures (sent, outcome, d.Snapshot())
         == TcpConnection(d.Constants(), d.tokenStore.compare, old(d.clients), old(d.Snapshot()),
                          hs, inbox)
  {
    ghost var s0 := d.Snapshot();
    if hs.auth.None? {
      return [], NoAuthFrame;
    }
    var auth := hs.auth.value;
    var ok := d.tokenStore.Validate(auth.tokenId, auth.tokenSecret, hs.now);
    ghost var i := AcceptedIndex(s0.tokens, d.tokenStore.compare, d.tokenStore.hash,
                                 auth.tokenId, auth.tokenSecret, hs.now);
    if !ok {
      sent := if hs.replyDelivered then [Error(Unauthorized)] else [];
      return sent, Rejected;
    }
    if !hs.replyDelivered {
      return [], PongFailed;
    }
    ghost var stamped := s0.(tokens := Stamp(s0.tokens, i.value, hs.now));
    assert d.Snapshot() == stamped;
    var replies, ending := CountedSession(d, auth.tokenId, inbox);
    sent := [Pong] + replies;
    outcome := Served(ending);
  }

  /** The session proper, between `increment_clients` and `decrement_clients`. */
  method CountedSession(d: Daemon, tokenId: string, inbox: seq<Incoming>)
    returns (replies: seq<Response>, ending: Ending)
    modifies d, d.tokenStore, d.repoStore
    ensures d.clients == old(d.clients)
    ensures (replies, ending, d.Snapshot())
         == Serve(d.Constants(), (old(d.clients) + 1) % U32Modulus, old(d.Snapshot()),
                  Session(Tcp, Some(tokenId)), inbox)
  {
    ghost var n0 := d.clients;
    d.IncrementClients();
    replies, ending := d.HandleConnection(Session(Tcp, Some(tokenId)), inbox);
    CounterRoundTrip(n0);
    d.DecrementClients();
  }

  /** A refused token gets exactly one `Unauthorized` and no command is ever run. */
  lemma RefusedTokenGetsOneUnauthorized(c: Consts, compare: HashCompare, clients: U32, s: State,
                                        auth: AuthToken, now: Timestamp, inbox: seq<Incoming>)
    requires AcceptedIndex(s.tokens, compare, c.hash, auth.tokenId, auth.tokenSecret, now).None?
    ensures TcpConnection(c, compare, clients, s, Handshake(Some(auth), now, true), inbox)
         == ([Error(Unauthorized)], Rejected, s)
  {
  }

  /**
   * An accepted token is answered `Pong` before any command, and the commands
   * then run as a TCP session carrying that token's id, with the token's
   * `last_seen` stamped and the counter one higher.
   */
  lemma AcceptedTokenGetsPongFirst(c: Consts, compare: HashCompare, clients: U32, s: State,
                                   auth: AuthToken, now: Timestamp, inbox: seq<Incoming>)
    requires AcceptedIndex(s.tokens, compare, c.hash, auth.tokenId, auth.tokenSecret, now).Some?
    ensures var i := AcceptedIndex(s.tokens, compare, c.hash, auth.tokenId, auth.tokenSecret, now).value;
      var (sent, outcome, after) := TcpConnection(c, compare, clients, s, Handshake(Some(auth), now, true), inbox);
      var session := Serve(c, (clients + 1) % U32Modulus, s.(tokens := Stamp(s.tokens, i, now)),
                           Session(Tcp, Some(auth.tokenId)), inbox);
      |sent| >= 1 && sent[0] == Pong && sent[1..] == session.0
      && outcome == Served(session.1) && after == session.2
  {
    var i := AcceptedIndex(s.tokens, compare, c.hash, auth.tokenId, auth.tokenSecret, now).value;
    var session := Serve(c, (clients + 1) % U32Modulus, s.(tokens := Stamp(s.tokens, i, now)),
                         Session(Tcp, Some(auth.tokenId)), inbox);
    assert ([Pong] + session.0)[1..] == session.0;
  }

  /**
   * A TCP connection changes the token list at most by stamping `last_seen`
   * on the one token that authenticated it.
   */
  lemma TcpConnectionOnlyStampsItsToken(c: Consts, compare: HashCompare, clients: U32, s: State,
                                        hs: Handshake, inbox: seq<Incoming>)
    ensures var after := TcpConnection(c, compare, clients, s, hs, inbox).2;
      after.tokens == s.tokens
      || (hs.auth.Some?
          && var i := AcceptedIndex(s.tokens, compare, c.hash, hs.auth.value.tokenId,
                                    hs.auth.value.tokenSecret, hs.now);
          i.Some? && after.tokens == Stamp(s.tokens, i.value, hs.now)
          && s.tokens[i.value].tokenId == hs.auth.value.tokenId)
  {
    if hs.auth.Some? {
      var auth := hs.auth.value;
      var i := AcceptedIndex(s.tokens, compare, c.hash, auth.tokenId, auth.tokenSecret, hs.now);
      if i.Some? && hs.replyDelivered {
        var stamped := s.(tokens := Stamp(s.tokens, i.value, hs.now));
        TcpSessionKeepsTokens(c, (clients + 1) % U32Modulus, stamped, Some(auth.tokenId), inbox);
      }
    }
  }

  /** `cert_fingerprint`: the lowercase hex of the hash of the first certificate's DER bytes. */
  function CertFingerprint(hash: seq<byte> -> Digest, certs: seq<seq<byte>>): (r: Result<string, string>)
    ensures r.Failure? <==> |certs| == 0
    ensures r.Success? ==> |r.value| == 64 && HexToBytes(r.value) == Success(hash(certs[0]))
  {
    if |certs| == 0 then Failure("No cert found")
    else
      HexRoundTrip(hash(certs[0]));
      Success(BytesToHex(hash(certs[0])))
  }
}
