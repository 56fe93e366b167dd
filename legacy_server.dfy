/**
 * The older daemon's connection loop and dispatcher
 * (`crates/vexd/src/server/mod.rs`): six commands, a token store and the
 * client counter, no repositories, no streaming and no idle timeout. Its
 * token store compares hashes as hex text (`HexText`).
 */
module LegacyServer {
  import opened Wrappers
  import opened Hex
  import opened Proto
  import opened Framing
  import opened Auth
  import Server

  /** The older protocol's `Command`: exactly the six variants its dispatcher matches. */
  datatype LegacyCommand =
    | Status
    | Whoami
    | PairCreate(tokenLabel: Option<string>, expireSecs: Option<U64>)
    | PairList
    | PairRevoke(id: string)
    | PairRevokeAll

  /** The outside world as one command sees it. */
  datatype LegacyEnv = LegacyEnv(
    now: Timestamp,
    uptimeSecs: nat,
    idBytes: IdBytes,
    secretBytes: SecretBytes,
    saveError: Option<string>)

  /** A local `PairCreate` whose expiry chrono cannot represent panics inside `generate`. */
  predicate LegacyPanics(ses: Server.Session, cmd: LegacyCommand, env: LegacyEnv) {
    ses.transport != Tcp && cmd.PairCreate? && ExpiryOf(cmd.expireSecs, env.now).Overflow?
  }

  /** `dispatch`: the reply and the token list it leaves. */
  function LegacyDispatch(hash: seq<byte> -> Digest, version: string, fmt: Timestamp -> string,
                          clients: U32, tokens: seq<Token>, ses: Server.Session,
                          cmd: LegacyCommand, env: LegacyEnv): (r: (Response, seq<Token>))
    requires !LegacyPanics(ses, cmd, env)
    ensures r.1 != tokens ==> ses.transport == Unix && !cmd.Status? && !cmd.Whoami? && !cmd.PairList?
  {
    var tcp := ses.transport == Tcp;
    match cmd
    case Status => (DaemonStatusReply(DaemonStatus(env.uptimeSecs, clients, version)), tokens)
    case Whoami => (ClientInfoReply(ClientInfo(ses.tokenId, ses.transport == Unix)), tokens)
    case PairCreate(tokenLabel, expireSecs) =>
      if tcp then (Error(LocalOnly), tokens)
      else
        var t := NewToken(hash, tokenLabel, expireSecs, env.idBytes, env.secretBytes, env.now);
        if env.saveError.Some? then (Error(Internal(env.saveError.value)), tokens + [t])
        else (Pair(PairPayload(t.tokenId, BytesToHex(env.secretBytes), None)), tokens + [t])
    case PairList =>
      if tcp then (Error(LocalOnly), tokens)
      else (PairedClients(Server.PairedClientsOf(tokens, fmt)), tokens)
    case PairRevoke(id) =>
      if tcp then (Error(LocalOnly), tokens)
      else (if HasId(tokens, id) then Ok else Error(NotFound), WithoutId(tokens, id))
    case PairRevokeAll =>
      if tcp then (Error(LocalOnly), tokens)
      else (Revoked(|tokens| % U32Modulus), [])
  }

  /** What the loop takes from the stream: a command (and whether its reply is written), or a failed read. */
  datatype LegacyIncoming =
    | Received(cmd: LegacyCommand, env: LegacyEnv, delivered: bool)
    | RecvFailed

  /** How `handle_connection` ends. */
  datatype LegacyEnding =
      /** a read failed: `Ok(())` */
    | Finished
      /** a reply could not be written: the error is returned */
    | WriteFailed
      /** the spawned connection task panicked while handling a command */
    | Panicked

  /** `handle_connection`: the replies written, how it ended, and the tokens left. */
  function LegacyServe(hash: seq<byte> -> Digest, version: string, fmt: Timestamp -> string,
                       clients: U32, tokens: seq<Token>, ses: Server.Session,
                       inbox: seq<LegacyIncoming>): (r: (seq<Response>, LegacyEnding, seq<Token>))
    ensures |r.0| <= |inbox|
    ensures r.1 == Panicked ==> ses.transport != Tcp
    decreases |inbox|
  {
    if |inbox| == 0 || inbox[0].RecvFailed? then ([], Finished, tokens)
    else if LegacyPanics(ses, inbox[0].cmd, inbox[0].env) then ([], Panicked, tokens)
    else
      var (resp, next) := LegacyDispatch(hash, version, fmt, clients, tokens, ses,
                                         inbox[0].cmd, inbox[0].env);
      if !inbox[0].delivered then ([], WriteFailed, next)
      else
        var (rest, ending, last) := LegacyServe(hash, version, fmt, clients, next, ses, inbox[1..]);
        ([resp] + rest, ending, last)
  }

  /** The older `AppState`. */
  class LegacyDaemon {
    const tokenStore: TokenStore
    var clients: U32
    const version: string
    const rfc3339: Timestamp -> string

    constructor (tokenStore: TokenStore, version: string, rfc3339: Timestamp -> string)
      ensures this.tokenStore == tokenStore && this.version == version
      ensures this.rfc3339 == rfc3339 && clients == 0
    {
      this.tokenStore := tokenStore;
      this.version := version;
      this.rfc3339 := rfc3339;
      clients := 0;
    }

    /** `dispatch`; `None` when the spawned connection task panics. */
    method Dispatch(cmd: LegacyCommand, ses: Server.Session, env: LegacyEnv)
      returns (resp: Option<Response>)
      modifies tokenStore
      ensures resp.None? <==> LegacyPanics(ses, cmd, env)
      ensures resp.None? ==> tokenStore.tokens == old(tokenStore.tokens)
      ensures resp.Some? ==>
                (resp.value, tokenStore.tokens)
                == LegacyDispatch(tokenStore.hash, version, rfc3339, clients, old(tokenStore.tokens),
                                  ses, cmd, env)
    {
      var tcp := ses.transport == Tcp;
      match cmd
      case Status =>
        resp := Some(DaemonStatusReply(DaemonStatus(env.uptimeSecs, clients, version)));
      case Whoami =>
        resp := Some(ClientInfoReply(ClientInfo(ses.tokenId, ses.transport == Unix)));
      case PairCreate(tokenLabel, expireSecs) =>
        if tcp {
          return Some(Error(LocalOnly));
        }
        var generated := tokenStore.Generate(tokenLabel, expireSecs, env.idBytes,
                                             env.secretBytes, env.now, env.saveError);
        match generated {
          case Issued(token, secret) =>
            resp := Some(Pair(PairPayload(token.tokenId, secret, None)));
          case NotSaved(e) =>
            resp := Some(Error(Internal(e)));
          case ExpiryPanic =>
            resp := None;
        }
      case PairList =>
        if tcp {
          return Some(Error(LocalOnly));
        }
        resp := Some(PairedClients(Server.PairedClientsOf(tokenStore.List(), rfc3339)));
      case PairRevoke(id) =>
        if tcp {
          return Some(Error(LocalOnly));
        }
        var removed := tokenStore.Revoke(id);
        resp := Some(if removed then Ok else Error(NotFound));
      case PairRevokeAll =>
        if tcp {
          return Some(Error(LocalOnly));
        }
        var count := tokenStore.RevokeAll();
        resp := Some(Revoked(count % U32Modulus));
    }

    /** `handle_connection`: dispatch and reply until a read fails; a failed write is an error. */
    method HandleConnection(ses: Server.Session, inbox: seq<LegacyIncoming>)
      returns (sent: seq<Response>, ending: LegacyEnding)
      modifies tokenStore
      ensures (sent, ending, tokenStore.tokens)
           == LegacyServe(tokenStore.hash, version, rfc3339, clients, old(tokenStore.tokens),
                          ses, inbox)
    {
      sent := [];
      var i := 0;
      ghost var start := old(tokenStore.tokens);
      ghost var whole := LegacyServe(tokenStore.hash, version, rfc3339, clients, start, ses, inbox);
      assert inbox[i..] == inbox;
      assert [] + whole.0 == whole.0;
      while i < |inbox| && inbox[i].Received?
        invariant 0 <= i <= |inbox|
        invariant var tail := LegacyServe(tokenStore.hash, version, rfc3339, clients,
                                          tokenStore.tokens, ses, inbox[i..]);
          whole == (sent + tail.0, tail.1, tail.2)
      {
        assert inbox[i..][0] == inbox[i] && inbox[i..][1..] == inbox[i + 1..];
        var reply := Dispatch(inbox[i].cmd, ses, inbox[i].env);
        if reply.None? {
          assert sent + [] == sent;
          return sent, Panicked;
        }
        var resp := reply.value;
        if !inbox[i].delivered {
          assert sent + [] == sent;
          return sent, WriteFailed;
        }
        ghost var tail := LegacyServe(tokenStore.hash, version, rfc3339, clients,
                                      tokenStore.tokens, ses, inbox[i + 1..]);
        assert sent + ([resp] + tail.0) == (sent + [resp]) + tail.0;
        sent := sent + [resp];
        i := i + 1;
      }
      assert i < |inbox| ==> inbox[i..][0].RecvFailed?;
      assert sent + [] == sent;
      ending := Finished;
    }
  }

  /** The four `Pair*` commands over TCP answer `LocalOnly` and keep the store as it is. */
  lemma LegacyLocalOnlyOverTcp(hash: seq<byte> -> Digest, version: string,
                               fmt: Timestamp -> string, clients: U32, tokens: seq<Token>,
                               tokenId: Option<string>, cmd: LegacyCommand, env: LegacyEnv)
    requires !cmd.Status? && !cmd.Whoami?
    ensures LegacyDispatch(hash, version, fmt, clients, tokens, Server.Session(Tcp, tokenId), cmd, env)
         == (Error(LocalOnly), tokens)
  {
  }

  /** The command as the current protocol spells it. */
  function Upgrade(cmd: LegacyCommand): (r: Command)
    ensures Server.LocalOnlyCommand(r) <==> !cmd.Status? && !cmd.Whoami?
  {
    match cmd
    case Status => Command.Status
    case Whoami => Command.Whoami
    case PairCreate(l, e) => Command.PairCreate(l, e)
    case PairList => Command.PairList
    case PairRevoke(id) => Command.PairRevoke(id)
    case PairRevokeAll => Command.PairRevokeAll
  }

  /**
   * The two daemon generations answer their six shared commands alike and
   * change the token list alike; neither touches the repositories for them.
   */
  lemma GenerationsAgree(hash: seq<byte> -> Digest, version: string, fmt: Timestamp -> string,
                         clients: U32, tokens: seq<Token>, repos: seq<Repository>,
                         ses: Server.Session, cmd: LegacyCommand, env: LegacyEnv,
                         handlerReply: Response, handlerRepos: seq<Repository>)
    requires !LegacyPanics(ses, cmd, env)
    ensures var current := Server.DispatchSpec(
              Server.Consts(hash, version, fmt), clients, Server.State(tokens, repos), ses,
              Upgrade(cmd),
              Server.Env(env.now, env.uptimeSecs, env.idBytes, env.secretBytes, env.saveError,
                         handlerReply, handlerRepos));
      LegacyDispatch(hash, version, fmt, clients, tokens, ses, cmd, env)
        == (current.0, current.1.tokens)
      && current.1.repos == repos
  {
  }

  /**
   * On the local socket `PairCreate` answers with the generated token's id and
   * its plaintext secret and no host, and that secret validates (the older
   * daemon compares hex text).
   */
  lemma LegacyPairCreateReply(hash: seq<byte> -> Digest, version: string,
                              fmt: Timestamp -> string, clients: U32, tokens: seq<Token>,
                              tokenLabel: Option<string>, expireSecs: Option<U64>,
                              env: LegacyEnv)
    requires env.saveError.None?
    requires !ExpiryOf(expireSecs, env.now).Overflow?
    requires expireSecs.Some? ==> AsI64(expireSecs.value) >= 0
    requires !HasId(tokens, "tok_" + BytesToHex(env.idBytes))
    ensures var (resp, after) := LegacyDispatch(hash, version, fmt, clients, tokens,
                                                Server.Session(Unix, None),
                                                LegacyCommand.PairCreate(tokenLabel, expireSecs), env);
      var t := NewToken(hash, tokenLabel, expireSecs, env.idBytes, env.secretBytes, env.now);
      && after == tokens + [t]
      && resp == Pair(PairPayload(t.tokenId, BytesToHex(env.secretBytes), None))
      && AcceptedIndex(after, HexText, hash, t.tokenId, BytesToHex(env.secretBytes), env.now)
         == Some(|tokens|)
  {
    OwnSecretAccepted(tokens, HexText, hash, tokenLabel, expireSecs, env.idBytes,
                      env.secretBytes, env.now, env.now);
  }

  /** The commands as they arrive, every reply written. */
  function LegacyDeliver(cmds: seq<(LegacyCommand, LegacyEnv)>): (r: seq<LegacyIncoming>)
    ensures |r| == |cmds|
    ensures forall i :: 0 <= i < |cmds| ==> r[i] == Received(cmds[i].0, cmds[i].1, true)
  {
    seq(|cmds|, i requires 0 <= i < |cmds| => Received(cmds[i].0, cmds[i].1, true))
  }

  /** Dispatching commands one after another, each against the token list the previous one left. */
  function LegacyReplay(hash: seq<byte> -> Digest, version: string, fmt: Timestamp -> string,
                        clients: U32, tokens: seq<Token>, ses: Server.Session,
                        cmds: seq<(LegacyCommand, LegacyEnv)>): (r: (seq<Response>, seq<Token>))
    requires forall i :: 0 <= i < |cmds| ==> !LegacyPanics(ses, cmds[i].0, cmds[i].1)
    ensures |r.0| == |cmds|
    decreases |cmds|
  {
    if |cmds| == 0 then ([], tokens)
    else
      var (replies, mid) := LegacyReplay(hash, version, fmt, clients, tokens, ses, cmds[..|cmds| - 1]);
      var (resp, next) := LegacyDispatch(hash, version, fmt, clients, mid, ses,
                                         cmds[|cmds| - 1].0, cmds[|cmds| - 1].1);
      (replies + [resp], next)
  }

  /** The loop answers delivered commands with the threaded dispatch replies, then carries on. */
  lemma {:induction false} LegacyServeRepliesInOrder(hash: seq<byte> -> Digest, version: string,
                                                     fmt: Timestamp -> string, clients: U32,
                                                     tokens: seq<Token>, ses: Server.Session,
                                                     cmds: seq<(LegacyCommand, LegacyEnv)>,
                                                     rest: seq<LegacyIncoming>)
    requires forall i :: 0 <= i < |cmds| ==> !LegacyPanics(ses, cmds[i].0, cmds[i].1)
    ensures var (replies, mid) := LegacyReplay(hash, version, fmt, clients, tokens, ses, cmds);
      var tail := LegacyServe(hash, version, fmt, clients, mid, ses, rest);
      LegacyServe(hash, version, fmt, clients, tokens, ses, LegacyDeliver(cmds) + rest)
        == (replies + tail.0, tail.1, tail.2)
    decreases |cmds|
  {
    if |cmds| == 0 {
      assert LegacyDeliver(cmds) + rest == rest;
      var r := LegacyServe(hash, version, fmt, clients, tokens, ses, rest);
      assert [] + r.0 == r.0;
    } else {
      var init := cmds[..|cmds| - 1];
      var last := cmds[|cmds| - 1];
      var w := Received(last.0, last.1, true);
      assert LegacyDeliver(cmds) + rest == LegacyDeliver(init) + ([w] + rest);
      LegacyServeRepliesInOrder(hash, version, fmt, clients, tokens, ses, init, [w] + rest);
      var (replies, mid) := LegacyReplay(hash, version, fmt, clients, tokens, ses, init);
      var (resp, next) := LegacyDispatch(hash, version, fmt, clients, mid, ses, last.0, last.1);
      assert ([w] + rest)[0] == w && ([w] + rest)[1..] == rest;
      var tail := LegacyServe(hash, version, fmt, clients, next, ses, rest);
      assert LegacyServe(hash, version, fmt, clients, mid, ses, [w] + rest)
          == ([resp] + tail.0, tail.1, tail.2);
      assert replies + ([resp] + tail.0) == (replies + [resp]) + tail.0;
    }
  }

  /**
   * One reply per command, in order, each the dispatch reply against the
   * tokens the commands before it left; then the first failed read ends the
   * loop without a reply and without an error.
   */
  lemma LegacyOneReplyPerCommand(hash: seq<byte> -> Digest, version: string,
                                 fmt: Timestamp -> string, clients: U32,
                                 tokens: seq<Token>, ses: Server.Session,
                                 cmds: seq<(LegacyCommand, LegacyEnv)>,
                                 rest: seq<LegacyIncoming>)
    requires forall i :: 0 <= i < |cmds| ==> !LegacyPanics(ses, cmds[i].0, cmds[i].1)
    ensures var (replies, after) := LegacyReplay(hash, version, fmt, clients, tokens, ses, cmds);
      LegacyServe(hash, version, fmt, clients, tokens, ses, LegacyDeliver(cmds) + [RecvFailed] + rest)
        == (replies, Finished, after)
  {
    var inbox := LegacyDeliver(cmds) + [RecvFailed] + rest;
    assert inbox == LegacyDeliver(cmds) + ([RecvFailed] + rest);
    LegacyServeRepliesInOrder(hash, version, fmt, clients, tokens, ses, cmds, [RecvFailed] + rest);
    var r := LegacyReplay(hash, version, fmt, clients, tokens, ses, cmds);
    assert r.0 + [] == r.0;
  }

  /** A local `PairCreate` whose expiry overflows ends the connection with no reply and no token. */
  lemma LegacyOverflowEndsConnection(hash: seq<byte> -> Digest, version: string,
                                     fmt: Timestamp -> string, clients: U32, tokens: seq<Token>,
                                     tokenLabel: Option<string>, expireSecs: Option<U64>,
                                     env: LegacyEnv, rest: seq<LegacyIncoming>)
    requires ExpiryOf(expireSecs, env.now).Overflow?
    ensures LegacyServe(hash, version, fmt, clients, tokens, Server.Session(Unix, None),
                        [Received(LegacyCommand.PairCreate(tokenLabel, expireSecs), env, true)] + rest)
         == ([], Panicked, tokens)
  {
  }
}
