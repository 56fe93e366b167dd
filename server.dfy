/**
 * The current daemon's connection loop and command dispatcher, with the two
 * byte and string helpers of the same file: the PTY scrollback ring and the
 * `send-keys` command line.
 *
 * The daemon is a `Daemon` object holding the token store, the repository
 * store and the connected-client counter. Dispatching a command is specified
 * by `DispatchSpec` on a `State` snapshot of both stores; a connection is a
 * sequence of `Incoming` events (a decoded command, a failed read, an idle
 * timeout) and is specified by `Serve`. Everything the daemon reads from the
 * outside world while handling one command (the clock, the uptime, random
 * bytes, whether writing `tokens.json` fails, and the reply and repository
 * list left by the handlers that shell out to git and tmux) arrives in that
 * command's `Env`.
 */
module Server {
  import opened Wrappers
  import opened Hex
  import opened Strings
  import opened Proto
  import opened Framing
  import opened Search
  import opened Auth
  import RepoStore

  // ------------------------------------------------------------ values

  /** The two stores as one value. */
  datatype State = State(tokens: seq<Token>, repos: seq<Repository>)

  /** What stays fixed for the daemon's lifetime: the hash, the version, the RFC 3339 formatter. */
  datatype Consts = Consts(hash: seq<byte> -> Digest, version: string, rfc3339: Timestamp -> string)

  /** How a connection arrived: the transport and, for TCP, the authenticated token id. */
  datatype Session = Session(transport: Transport, tokenId: Option<string>)

  /** The outside world as one command sees it. */
  datatype Env = Env(
    now: Timestamp,
    uptimeSecs: nat,
    idBytes: IdBytes,
    secretBytes: SecretBytes,
    saveError: Option<string>,
    handlerReply: Response,
    handlerRepos: seq<Repository>)

  /** Commands a TCP client is refused with `LocalOnly`. */
  predicate LocalOnlyCommand(cmd: Command) {
    cmd.PairCreate? || cmd.PairList? || cmd.PairRevoke? || cmd.PairRevokeAll?
    || cmd.RepoRegister? || cmd.RepoSetDefaultBranch?
  }

  /** Commands that take the connection over for PTY streaming. */
  predicate StreamingCommand(cmd: Command) {
    cmd.ShellRegister? || cmd.AttachShell?
  }

  /** Commands answered by handlers that run git or tmux. */
  /** The commands whose arm may replace the repository list. */
  predicate RepoChange(cmd: Command) {
    cmd.RepoRegister? || cmd.RepoUnregister? || cmd.RepoSetDefaultBranch? || HandledExternally(cmd)
  }

  predicate HandledExternally(cmd: Command) {
    cmd.WorkstreamCreate? || cmd.WorkstreamDelete? || cmd.AgentSpawn? || cmd.AgentSpawnInPlace?
    || cmd.AgentKill? || cmd.ShellSpawn? || cmd.ShellKill?
  }

  /** A local `PairCreate` whose expiry chrono cannot represent panics inside `generate`. */
  predicate DispatchPanics(ses: Session, cmd: Command, env: Env) {
    ses.transport != Tcp && cmd.PairCreate? && ExpiryOf(cmd.expireSecs, env.now).Overflow?
  }

  // ----------------------------------------------------------- helpers

  function FormatOpt(t: Option<Timestamp>, fmt: Timestamp -> string): (r: Option<string>)
    ensures r.Some? <==> t.Some?
    ensures r.Some? ==> r.value == fmt(t.value)
  {
    match t
    case None => None
    case Some(v) => Some(fmt(v))
  }

  /** A stored token as `PairList` shows it. */
  function PairedClientOf(t: Token, fmt: Timestamp -> string): PairedClient {
    PairedClient(t.tokenId, t.tokenLabel, fmt(t.createdAt),
                 FormatOpt(t.expiresAt, fmt), FormatOpt(t.lastSeen, fmt))
  }

  /** `list().iter().map(..).collect()`: one entry per token, in store order. */
  function PairedClientsOf(tokens: seq<Token>, fmt: Timestamp -> string): (r: seq<PairedClient>)
    ensures |r| == |tokens|
    ensures forall i :: 0 <= i < |tokens| ==>
              r[i].tokenId == tokens[i].tokenId && r[i].tokenLabel == tokens[i].tokenLabel
              && r[i].createdAt == fmt(tokens[i].createdAt)
              && r[i].expiresAt == FormatOpt(tokens[i].expiresAt, fmt)
              && r[i].lastSeen == FormatOpt(tokens[i].lastSeen, fmt)
  {
    if |tokens| == 0 then []
    else [PairedClientOf(tokens[0], fmt)] + PairedClientsOf(tokens[1..], fmt)
  }

  /** `Vec::remove(i)`: drops the element at `i` and shifts the rest down. */
  function RemoveAt<T>(s: seq<T>, i: nat): (r: seq<T>)
    requires i < |s|
    ensures |r| == |s| - 1
    ensures forall j :: 0 <= j < i ==> r[j] == s[j]
    ensures forall j :: i <= j < |r| ==> r[j] == s[j + 1]
  {
    s[..i] + s[i + 1..]
  }

  /** `iter().position(|r| r.id == id)`. */
  function RepoPosition(repos: seq<Repository>, id: string): (r: Option<nat>)
    ensures r.None? <==> forall i :: 0 <= i < |repos| ==> repos[i].id != id
    ensures r.Some? ==> r.value < |repos| && repos[r.value].id == id
                        && forall j :: 0 <= j < r.value ==> repos[j].id != id
  {
    FirstIndex(repos, (x: Repository) => x.id == id)
  }

  /** `iter().filter(|r| r.id == rid).cloned().collect()`. */
  function ReposWithId(repos: seq<Repository>, rid: string): (r: seq<Repository>)
    ensures |r| <= |repos|
    ensures forall x :: x in r <==> x in repos && x.id == rid
  {
    if |repos| == 0 then []
    else
      assert repos == [repos[0]] + repos[1..];
      (if repos[0].id == rid then [repos[0]] else []) + ReposWithId(repos[1..], rid)
  }

  // ----------------------------------------------------------- dispatch

  /** `dispatch`: the reply to one command and the stores it leaves. */
  function DispatchSpec(c: Consts, clients: U32, s: State, ses: Session, cmd: Command, env: Env)
    : (r: (Response, State))
    requires !DispatchPanics(ses, cmd, env)
    ensures r.1.tokens != s.tokens ==>
              ses.transport == Unix && (cmd.PairCreate? || cmd.PairRevoke? || cmd.PairRevokeAll?)
    ensures r.1.repos != s.repos ==> RepoChange(cmd)
  {
    var tcp := ses.transport == Tcp;
    match cmd
    case Status => (DaemonStatusReply(DaemonStatus(env.uptimeSecs, clients, c.version)), s)
    case Whoami => (ClientInfoReply(ClientInfo(ses.tokenId, ses.transport == Unix)), s)
    case PairCreate(tokenLabel, expireSecs) =>
      if tcp then (Error(LocalOnly), s)
      else
        var t := NewToken(c.hash, tokenLabel, expireSecs, env.idBytes, env.secretBytes, env.now);
        var after := s.(tokens := s.tokens + [t]);
        if env.saveError.Some? then (Error(Internal(env.saveError.value)), after)
        else (Pair(PairPayload(t.tokenId, BytesToHex(env.secretBytes), None)), after)
    case PairList =>
      if tcp then (Error(LocalOnly), s)
      else (PairedClients(PairedClientsOf(s.tokens, c.rfc3339)), s)
    case PairRevoke(id) =>
      if tcp then (Error(LocalOnly), s)
      else (if HasId(s.tokens, id) then Ok else Error(NotFound),
            s.(tokens := WithoutId(s.tokens, id)))
    case PairRevokeAll =>
      if tcp then (Error(LocalOnly), s)
      else (Revoked(|s.tokens| % U32Modulus), s.(tokens := []))
    case RepoRegister(_) =>
      if tcp then (Error(LocalOnly), s)
      else (env.handlerReply, s.(repos := env.handlerRepos))
    case RepoList => (RepoListReply(s.repos), s)
    case RepoUnregister(repoId) =>
      (match RepoPosition(s.repos, repoId)
       case None => (Error(NotFound), s)
       case Some(i) => (RepoUnregistered, s.(repos := RemoveAt(s.repos, i))))
    case RepoSetDefaultBranch(repoId, branch) =>
      if tcp then (Error(LocalOnly), s)
      else
        (match RepoPosition(s.repos, repoId)
         case None => (Error(NotFound), s)
         case Some(i) =>
           (RepoDefaultBranchSet, s.(repos := s.repos[i := s.repos[i].(defaultBranch := branch)])))
    case WorkstreamList(repoFilter) =>
      (WorkstreamListReply(match repoFilter
                           case None => s.repos
                           case Some(rid) => ReposWithId(s.repos, rid)), s)
    case AgentList(wsId) =>
      (match RepoStore.GetWorkstream(s.repos, wsId)
       case None => (Error(NotFound), s)
       case Some(ws) => (AgentListReply(ws.agents), s))
    case ShellList(wsId) =>
      (match RepoStore.GetWorkstream(s.repos, wsId)
       case None => (Error(NotFound), s)
       case Some(ws) => (ShellListReply(ws.shells), s))
    case ShellRegister(_, _) => (Error(Internal("unexpected streaming command")), s)
    case AttachShell(_) => (Error(Internal("unexpected streaming command")), s)
    case DetachShell(_) => (Error(Internal("PTY streaming not yet implemented")), s)
    case PtyInput(_) => (Error(Internal("PTY streaming not yet implemented")), s)
    case PtyResize(_) => (Error(Internal("PTY streaming not yet implemented")), s)
    case _ =>
      assert HandledExternally(cmd);
      (env.handlerReply, s.(repos := env.handlerRepos))
  }

  // ---------------------------------------------------------- connection

  /** What the connection loop takes from the stream. */
  datatype Incoming =
      /** a decoded command; `delivered` says whether writing its reply succeeds */
    | Received(cmd: Command, env: Env, delivered: bool)
      /** the peer went away or sent a frame that does not decode */
    | RecvFailed
      /** no command for 300 seconds */
    | IdleTimeout

  /** How a connection ends. */
  datatype Ending =
    | Closed
    | TimedOut
    | SendFailed
      /** a streaming command over TCP was answered `LocalOnly` and the loop returned */
    | StreamingRefused
      /** the connection was handed to the PTY streaming handler */
    | Streaming(cmd: Command)
      /** the spawned connection task panicked while handling a command: no reply, and it is gone */
    | Panicked

  const IdleTimeoutSecs: nat := 300

  function Prepend(sent: seq<Response>, r: (seq<Response>, Ending, State))
    : (seq<Response>, Ending, State)
  {
    (sent + r.0, r.1, r.2)
  }

  /**
   * `handle_connection`: the replies written, how the connection ends and the
   * stores it leaves. An input that runs out is the peer closing the stream.
   */
  function Serve(c: Consts, clients: U32, s: State, ses: Session, inbox: seq<Incoming>)
    : (r: (seq<Response>, Ending, State))
    ensures |r.0| <= |inbox|
    ensures r.1 == Panicked ==> ses.transport != Tcp
    decreases |inbox|
  {
    if |inbox| == 0 then ([], Closed, s)
    else
      match inbox[0]
      case RecvFailed => ([], Closed, s)
      case IdleTimeout => ([], TimedOut, s)
      case Received(cmd, env, delivered) =>
        if StreamingCommand(cmd) then
          if ses.transport == Tcp then
            if delivered then ([Error(LocalOnly)], StreamingRefused, s) else ([], SendFailed, s)
          else ([], Streaming(cmd), s)
        else if DispatchPanics(ses, cmd, env) then ([], Panicked, s)
        else
          var (resp, next) := DispatchSpec(c, clients, s, ses, cmd, env);
          if !delivered then ([], SendFailed, next)
          else Prepend([resp], Serve(c, clients, next, ses, inbox[1..]))
  }

  // -------------------------------------------------------------- daemon

  /** `AppState`: the two locked stores and the atomic client counter. */
  class Daemon {
    const tokenStore: TokenStore
    const repoStore: RepoStore.RepoStore
    /** `client_counter`, an `AtomicU32` */
    var clients: U32
    const version: string
    const rfc3339: Timestamp -> string

    constructor (tokenStore: TokenStore, repoStore: RepoStore.RepoStore, version: string,
                 rfc3339: Timestamp -> string)
      ensures this.tokenStore == tokenStore && this.repoStore == repoStore
      ensures this.version == version && this.rfc3339 == rfc3339 && clients == 0
    {
      this.tokenStore := tokenStore;
      this.repoStore := repoStore;
      this.version := version;
      this.rfc3339 := rfc3339;
      clients := 0;
    }

    function Snapshot(): State
      reads tokenStore, repoStore
    {
      State(tokenStore.tokens, repoStore.repos)
    }

    function Constants(): Consts {
      Consts(tokenStore.hash, version, rfc3339)
    }

    /** `fetch_add(1)`, which wraps at 2^32. */
    method IncrementClients()
      modifies this
      ensures clients == (old(clients) + 1) % U32Modulus
    {
      clients := (clients + 1) % U32Modulus;
    }

    /** `fetch_sub(1)`, which wraps below zero. */
    method DecrementClients()
      modifies this
      ensures clients == (old(clients) + U32Modulus - 1) % U32Modulus
    {
      clients := (clients + U32Modulus - 1) % U32Modulus;
    }

    /** `dispatch`, one arm per command; each group of arms is a method of its own. */
    method Dispatch(cmd: Command, ses: Session, env: Env) returns (resp: Option<Response>)
      modifies tokenStore, repoStore
      ensures resp.None? <==> DispatchPanics(ses, cmd, env)
      ensures resp.None? ==> Snapshot() == old(Snapshot())
      ensures resp.Some? ==>
                (resp.value, Snapshot()) == DispatchSpec(Constants(), clients, old(Snapshot()), ses, cmd, env)
    {
      if cmd.PairCreate? || cmd.PairList? || cmd.PairRevoke? || cmd.PairRevokeAll? {
        resp := DispatchPairing(cmd, ses, env);
      } else if RepoChange(cmd) {
        var r := DispatchRepoChange(cmd, ses, env);
        resp := Some(r);
      } else {
        var r := DispatchQuery(cmd, ses, env);
        resp := Some(r);
      }
    }

    /** The arms that only read the stores. */
    method DispatchQuery(cmd: Command, ses: Session, env: Env) returns (resp: Response)
      requires !(cmd.PairCreate? || cmd.PairList? || cmd.PairRevoke? || cmd.PairRevokeAll?)
      requires !RepoChange(cmd)
      ensures (resp, Snapshot()) == DispatchSpec(Constants(), clients, Snapshot(), ses, cmd, env)
    {
      match cmd
      case Status =>
        resp := DaemonStatusReply(DaemonStatus(env.uptimeSecs, clients, version));
      case Whoami =>
        resp := ClientInfoReply(ClientInfo(ses.tokenId, ses.transport == Unix));
      case RepoList =>
        resp := RepoListReply(repoStore.repos);
      case WorkstreamList(repoFilter) =>
        var repos := match repoFilter
                     case None => repoStore.repos
                     case Some(rid) => ReposWithId(repoStore.repos, rid);
        resp := WorkstreamListReply(repos);
      case AgentList(wsId) =>
        match RepoStore.GetWorkstream(repoStore.repos, wsId) {
          case None =>
            resp := Error(NotFound);
          case Some(ws) =>
            resp := AgentListReply(ws.agents);
        }
      case ShellList(wsId) =>
        match RepoStore.GetWorkstream(repoStore.repos, wsId) {
          case None =>
            resp := Error(NotFound);
          case Some(ws) =>
            resp := ShellListReply(ws.shells);
        }
      case ShellRegister(_, _) =>
        resp := Error(Internal("unexpected streaming command"));
      case AttachShell(_) =>
        resp := Error(Internal("unexpected streaming command"));
      case DetachShell(_) =>
        resp := Error(Internal("PTY streaming not yet implemented"));
      case PtyInput(_) =>
        resp := Error(Internal("PTY streaming not yet implemented"));
      case PtyResize(_) =>
        resp := Error(Internal("PTY streaming not yet implemented"));
    }

    /** The arms that may replace the repository list. */
    method DispatchRepoChange(cmd: Command, ses: Session, env: Env) returns (resp: Response)
      requires RepoChange(cmd)
      modifies repoStore
      ensures (resp, Snapshot()) == DispatchSpec(Constants(), clients, old(Snapshot()), ses, cmd, env)
    {
      var tcp := ses.transport == Tcp;
      if cmd.RepoUnregister? {
        match RepoPosition(repoStore.repos, cmd.repoId) {
          case None =>
            resp := Error(NotFound);
          case Some(i) =>
            repoStore.repos := RemoveAt(repoStore.repos, i);
            resp := RepoUnregistered;
        }
      } else if cmd.RepoSetDefaultBranch? {
        if tcp {
          return Error(LocalOnly);
        }
        match RepoPosition(repoStore.repos, cmd.repoId) {
          case None =>
            resp := Error(NotFound);
          case Some(i) =>
            repoStore.repos := repoStore.repos[i := repoStore.repos[i].(defaultBranch := cmd.branch)];
            resp := RepoDefaultBranchSet;
        }
      } else {
        // `RepoRegister` and the commands handled outside the dispatcher
        if tcp && cmd.RepoRegister? {
          return Error(LocalOnly);
        }
        repoStore.repos := env.handlerRepos;
        resp := env.handlerReply;
      }
    }

    /** The four `Pair*` arms of `dispatch`, which touch only the token store. */
    method DispatchPairing(cmd: Command, ses: Session, env: Env) returns (resp: Option<Response>)
      requires cmd.PairCreate? || cmd.PairList? || cmd.PairRevoke? || cmd.PairRevokeAll?
      modifies tokenStore, repoStore
      ensures resp.None? <==> DispatchPanics(ses, cmd, env)
      ensures resp.None? ==> Snapshot() == old(Snapshot())
      ensures resp.Some? ==>
                (resp.value, Snapshot()) == DispatchSpec(Constants(), clients, old(Snapshot()), ses, cmd, env)
    {
      var tcp := ses.transport == Tcp;
      match cmd
      case PairCreate(tokenLabel, expireSecs) =>
        if tcp {
          return Some(Error(LocalOnly));
        }
        var generated := tokenStore.Generate(tokenLabel, expireSecs, env.idBytes,
                                             env.secretBytes, env.now, env.saveError);
        match generated {
          case Issued(_, secret) =>
            var listed := tokenStore.List();
            var token := listed[|listed| - 1];
            resp := Some(Pair(PairPayload(token.tokenId, secret, None)));
          case NotSaved(e) =>
            resp := Some(Error(Internal(e)));
          case ExpiryPanic =>
            resp := None;
        }
      case PairList =>
        if tcp {
          return Some(Error(LocalOnly));
        }
        resp := Some(PairedClients(PairedClientsOf(tokenStore.List(), rfc3339)));
      case PairRevoke(id) =>
        if tcp {
          return Some(Error(LocalOnly));
        }
        var removed := tokenStore.Revoke(id);
        resp := Some(if removed then Ok else Error(NotFound));
      case PairRevokeAll =>
        if tcp {
          return Some(Error(LocalOnly));
        }
        var n := tokenStore.RevokeAll();
        resp := Some(Revoked(n % U32Modulus));
    }

    /**
     * `handle_connection`: receive, intercept the streaming commands, dispatch
     * and reply, until a read fails, the peer idles or a write fails.
     */
    method HandleConnection(ses: Session, inbox: seq<Incoming>)
      returns (sent: seq<Response>, ending: Ending)
      modifies tokenStore, repoStore
      ensures (sent, ending, Snapshot()) == Serve(Constants(), clients, old(Snapshot()), ses, inbox)
    {
      sent := [];
      var i := 0;
      assert inbox[i..] == inbox;
      assert [] + Serve(Constants(), clients, Snapshot(), ses, inbox).0
          == Serve(Constants(), clients, Snapshot(), ses, inbox).0;
      while i < |inbox|
        invariant 0 <= i <= |inbox|
        invariant Serve(Constants(), clients, old(Snapshot()), ses, inbox)
               == Prepend(sent, Serve(Constants(), clients, Snapshot(), ses, inbox[i..]))
      {
        assert inbox[i..][0] == inbox[i] && inbox[i..][1..] == inbox[i + 1..];
        match inbox[i]
        case RecvFailed =>
          assert sent + [] == sent;
          return sent, Closed;
        case IdleTimeout =>
          assert sent + [] == sent;
          return sent, TimedOut;
        case Received(cmd, env, delivered) =>
          if cmd.ShellRegister? || cmd.AttachShell? {
            assert sent + [] == sent;
            if ses.transport == Tcp {
              if !delivered {
                return sent, SendFailed;
              }
              return sent + [Error(LocalOnly)], StreamingRefused;
            }
            return sent, Streaming(cmd);
          }
          var reply := Dispatch(cmd, ses, env);
          if reply.None? {
            assert sent + [] == sent;
            return sent, Panicked;
          }
          var resp := reply.value;
          if !delivered {
            assert sent + [] == sent;
            return sent, SendFailed;
          }
          assert sent + ([resp] + Serve(Constants(), clients, Snapshot(), ses, inbox[i + 1..]).0)
              == (sent + [resp]) + Serve(Constants(), clients, Snapshot(), ses, inbox[i + 1..]).0;
          sent := sent + [resp];
        i := i + 1;
      }
      assert sent + [] == sent;
      ending := Closed;
    }

    /**
     * `serve_unix`'s per-connection task: counted while it runs, as Unix with
     * no token. A panic unwinds past `decrement_clients`, so the counter
     * then stays one higher.
     */
    method ServeUnixConnection(inbox: seq<Incoming>) returns (sent: seq<Response>, ending: Ending)
      modifies this, tokenStore, repoStore
      ensures ending != Panicked ==> clients == old(clients)
      ensures ending == Panicked ==> clients == (old(clients) + 1) % U32Modulus
      ensures (sent, ending, Snapshot())
           == Serve(Constants(), (old(clients) + 1) % U32Modulus, old(Snapshot()),
                    Session(Unix, None), inbox)
    {
      ghost var n0 := clients;
      IncrementClients();
      sent, ending := HandleConnection(Session(Unix, None), inbox);
      if ending == Panicked {
        return;
      }
      DecrementClients();
      CounterRoundTrip(n0);
    }
  }

  /** `increment_clients` then `decrement_clients` restores the counter, wrap-around included. */
  lemma CounterRoundTrip(n: U32)
    ensures ((n + 1) % U32Modulus + U32Modulus - 1) % U32Modulus == n
  {
    if n + 1 < U32Modulus {
      assert (n + 1) % U32Modulus == n + 1;
      assert (n + U32Modulus) % U32Modulus == n;
    } else {
      assert (n + 1) % U32Modulus == 0;
    }
  }

  // ----------------------------------------------------- dispatch facts

  /** Over TCP the admin commands answer `LocalOnly` and change neither store. */
  lemma LocalOnlyOverTcp(c: Consts, clients: U32, s: State, tokenId: Option<string>,
                         cmd: Command, env: Env)
    requires LocalOnlyCommand(cmd)
    ensures DispatchSpec(c, clients, s, Session(Tcp, tokenId), cmd, env) == (Error(LocalOnly), s)
  {
  }

  /** Nothing a TCP client can send changes the token store. */
  lemma TcpKeepsTokens(c: Consts, clients: U32, s: State, tokenId: Option<string>,
                       cmd: Command, env: Env)
    ensures DispatchSpec(c, clients, s, Session(Tcp, tokenId), cmd, env).1.tokens == s.tokens
  {
  }

  /** `Whoami` is answered on both transports, with the session's token and `is_local` iff Unix. */
  lemma WhoamiReportsSession(c: Consts, clients: U32, s: State, ses: Session, env: Env)
    ensures var (resp, after) := DispatchSpec(c, clients, s, ses, Whoami, env);
      after == s && resp.ClientInfoReply?
      && resp.info.tokenId == ses.tokenId && (resp.info.isLocal <==> ses.transport == Unix)
  {
  }

  /**
   * `PairCreate` from a local client appends exactly one token and answers
   * with its id and plaintext secret; that pairing string splits back into
   * both, and presenting it validates against the new token until it expires
   * (when no older token has drawn the same id).
   */
  lemma PairCreateIssuesWorkingPairing(c: Consts, clients: U32, s: State, tokenId: Option<string>,
                                       tokenLabel: Option<string>, expireSecs: Option<U64>,
                                       env: Env, compare: HashCompare, later: Timestamp)
    requires env.saveError.None?
    requires !HasId(s.tokens, "tok_" + BytesToHex(env.idBytes))
    requires !ExpiryOf(expireSecs, env.now).Overflow?
    requires expireSecs.Some? ==> later <= env.now + AsI64(expireSecs.value)
    ensures var (resp, after) := DispatchSpec(c, clients, s, Session(Unix, tokenId),
                                              PairCreate(tokenLabel, expireSecs), env);
      && resp.Pair? && resp.payload.host.None?
      && after.repos == s.repos
      && after.tokens[..|s.tokens|] == s.tokens && |after.tokens| == |s.tokens| + 1
      && after.tokens[|s.tokens|].tokenId == resp.payload.tokenId
      && SplitOnce(PairingString(resp.payload), ':')
         == Some((resp.payload.tokenId, resp.payload.tokenSecret))
      && AcceptedIndex(after.tokens, compare, c.hash, resp.payload.tokenId,
                       resp.payload.tokenSecret, later) == Some(|s.tokens|)
  {
    var t := NewToken(c.hash, tokenLabel, expireSecs, env.idBytes, env.secretBytes, env.now);
    NewTokenFormat(c.hash, tokenLabel, expireSecs, env.idBytes, env.secretBytes, env.now);
    OwnSecretAccepted(s.tokens, compare, c.hash, tokenLabel, expireSecs, env.idBytes,
                      env.secretBytes, env.now, later);
    var payload := PairPayload(t.tokenId, BytesToHex(env.secretBytes), None);
    PairingStringSplits(payload);
    assert (s.tokens + [t])[..|s.tokens|] == s.tokens;
    LocalPairCreate(c, clients, s, tokenId, tokenLabel, expireSecs, env);
  }

  /** A local `PairCreate` that saves appends the new token and answers with its pairing payload. */
  lemma LocalPairCreate(c: Consts, clients: U32, s: State, tokenId: Option<string>,
                        tokenLabel: Option<string>, expireSecs: Option<U64>, env: Env)
    requires env.saveError.None? && !ExpiryOf(expireSecs, env.now).Overflow?
    ensures var t := NewToken(c.hash, tokenLabel, expireSecs, env.idBytes, env.secretBytes, env.now);
      DispatchSpec(c, clients, s, Session(Unix, tokenId), PairCreate(tokenLabel, expireSecs), env)
      == (Pair(PairPayload(t.tokenId, BytesToHex(env.secretBytes), None)), s.(tokens := s.tokens + [t]))
  {
  }

  /** When `tokens.json` cannot be written the error is reported, yet the token stays in memory. */
  lemma PairCreateSaveFailureKeepsToken(c: Consts, clients: U32, s: State, tokenId: Option<string>,
                                        tokenLabel: Option<string>, expireSecs: Option<U64>,
                                        env: Env)
    requires env.saveError.Some?
    requires !ExpiryOf(expireSecs, env.now).Overflow?
    ensures var (resp, after) := DispatchSpec(c, clients, s, Session(Unix, tokenId),
                                              PairCreate(tokenLabel, expireSecs), env);
      resp == Error(Internal(env.saveError.value)) && |after.tokens| == |s.tokens| + 1
  {
  }

  /**
   * A local `PairCreate` whose expiry overflows ends the connection with no
   * reply, no token stored and nothing after it read.
   */
  lemma PairCreateOverflowEndsConnection(c: Consts, clients: U32, s: State, tokenId: Option<string>,
                                         tokenLabel: Option<string>, expireSecs: Option<U64>,
                                         env: Env, rest: seq<Incoming>)
    requires ExpiryOf(expireSecs, env.now).Overflow?
    ensures Serve(c, clients, s, Session(Unix, tokenId),
                  [Received(PairCreate(tokenLabel, expireSecs), env, true)] + rest)
         == ([], Panicked, s)
  {
  }

  /** `PairRevoke` answers `Ok` iff a token had the id, else `NotFound`; either way none is left. */
  lemma PairRevokeReply(c: Consts, clients: U32, s: State, tokenId: Option<string>, id: string,
                        env: Env)
    ensures var (resp, after) := DispatchSpec(c, clients, s, Session(Unix, tokenId), PairRevoke(id), env);
      (resp == Ok <==> HasId(s.tokens, id))
      && (resp != Ok ==> resp == Error(NotFound) && after == s)
      && !HasId(after.tokens, id) && after.repos == s.repos
  {
    var kept := WithoutId(s.tokens, id);
    WithoutIdMembers(s.tokens, id);
    assert !HasId(kept, id);
    if !HasId(s.tokens, id) {
      WithoutIdNoop(s.tokens, id);
    }
    LocalPairRevoke(c, clients, s, tokenId, id, env);
  }

  /** A local `PairRevoke` drops the id's tokens and answers whether there were any. */
  lemma LocalPairRevoke(c: Consts, clients: U32, s: State, tokenId: Option<string>, id: string,
                        env: Env)
    ensures DispatchSpec(c, clients, s, Session(Unix, tokenId), PairRevoke(id), env)
         == (if HasId(s.tokens, id) then Ok else Error(NotFound), s.(tokens := WithoutId(s.tokens, id)))
  {
  }

  /** `PairRevokeAll` answers with the number of tokens it deleted (as a `u32`). */
  lemma PairRevokeAllReply(c: Consts, clients: U32, s: State, tokenId: Option<string>, env: Env)
    requires |s.tokens| < U32Modulus
    ensures DispatchSpec(c, clients, s, Session(Unix, tokenId), PairRevokeAll, env)
         == (Revoked(|s.tokens|), s.(tokens := []))
  {
  }

  /** `RepoUnregister` (on either transport) removes the first repository with the id, else `NotFound`. */
  lemma RepoUnregisterRemovesFirst(c: Consts, clients: U32, s: State, ses: Session, repoId: string,
                                   env: Env)
    ensures var (resp, after) := DispatchSpec(c, clients, s, ses, RepoUnregister(repoId), env);
      && (resp == RepoUnregistered <==> exists i :: 0 <= i < |s.repos| && s.repos[i].id == repoId)
      && (resp != RepoUnregistered ==> resp == Error(NotFound) && after == s)
      && after.tokens == s.tokens
      && (resp == RepoUnregistered ==>
            exists i :: 0 <= i < |s.repos| && s.repos[i].id == repoId
                        && (forall j :: 0 <= j < i ==> s.repos[j].id != repoId)
                        && after.repos == s.repos[..i] + s.repos[i + 1..])
  {
    match RepoPosition(s.repos, repoId)
    case None =>
    case Some(i) =>
      assert s.repos[i].id == repoId;
  }

  /** `WorkstreamList` returns every repository, or exactly those with the requested id. */
  lemma WorkstreamListFilter(c: Consts, clients: U32, s: State, ses: Session,
                             repoFilter: Option<string>, env: Env)
    ensures var (resp, after) := DispatchSpec(c, clients, s, ses, WorkstreamList(repoFilter), env);
      && after == s && resp.WorkstreamListReply?
      && (repoFilter.None? ==> resp.repos == s.repos)
      && (repoFilter.Some? ==>
            forall r :: r in resp.repos <==> r in s.repos && r.id == repoFilter.value)
  {
  }

  /** `PairList` shows every token in store order, with its id and label. */
  lemma PairListShowsTokens(c: Consts, clients: U32, s: State, tokenId: Option<string>, env: Env)
    ensures var (resp, after) := DispatchSpec(c, clients, s, Session(Unix, tokenId), PairList, env);
      && after == s && resp.PairedClients? && |resp.clients| == |s.tokens|
      && forall i :: 0 <= i < |s.tokens| ==>
           resp.clients[i].tokenId == s.tokens[i].tokenId
           && resp.clients[i].tokenLabel == s.tokens[i].tokenLabel
           && (resp.clients[i].lastSeen.Some? <==> s.tokens[i].lastSeen.Some?)
  {
  }

  // --------------------------------------------------- connection facts

  /** Dispatching commands one after another, each against the stores the previous one left. */
  function Replay(c: Consts, clients: U32, s: State, ses: Session, cmds: seq<(Command, Env)>)
    : (r: (seq<Response>, State))
    requires forall i :: 0 <= i < |cmds| ==> !DispatchPanics(ses, cmds[i].0, cmds[i].1)
    ensures |r.0| == |cmds|
    decreases |cmds|
  {
    if |cmds| == 0 then ([], s)
    else
      var (replies, mid) := Replay(c, clients, s, ses, cmds[..|cmds| - 1]);
      var (resp, next) := DispatchSpec(c, clients, mid, ses, cmds[|cmds| - 1].0, cmds[|cmds| - 1].1);
      (replies + [resp], next)
  }

  /** The commands as they arrive, every reply deliverable. */
  function Deliver(cmds: seq<(Command, Env)>): (r: seq<Incoming>)
    ensures |r| == |cmds|
    ensures forall i :: 0 <= i < |cmds| ==> r[i] == Received(cmds[i].0, cmds[i].1, true)
  {
    seq(|cmds|, i requires 0 <= i < |cmds| => Received(cmds[i].0, cmds[i].1, true))
  }

  lemma {:induction false} ServeRepliesInOrder(c: Consts, clients: U32, s: State, ses: Session,
                                               cmds: seq<(Command, Env)>, rest: seq<Incoming>)
    requires forall i :: 0 <= i < |cmds| ==> !StreamingCommand(cmds[i].0)
    requires forall i :: 0 <= i < |cmds| ==> !DispatchPanics(ses, cmds[i].0, cmds[i].1)
    ensures Serve(c, clients, s, ses, Deliver(cmds) + rest)
         == Prepend(Replay(c, clients, s, ses, cmds).0,
                    Serve(c, clients, Replay(c, clients, s, ses, cmds).1, ses, rest))
    decreases |cmds|
  {
    if |cmds| == 0 {
      assert Deliver(cmds) + rest == rest;
      var r := Serve(c, clients, s, ses, rest);
      assert [] + r.0 == r.0;
    } else {
      var init := cmds[..|cmds| - 1];
      var last := cmds[|cmds| - 1];
      var w := Received(last.0, last.1, true);
      assert Deliver(cmds) + rest == Deliver(init) + ([w] + rest);
      ServeRepliesInOrder(c, clients, s, ses, init, [w] + rest);
      var (replies, mid) := Replay(c, clients, s, ses, init);
      var (resp, next) := DispatchSpec(c, clients, mid, ses, last.0, last.1);
      assert ([w] + rest)[0] == w && ([w] + rest)[1..] == rest;
      var tail := Serve(c, clients, next, ses, rest);
      assert Serve(c, clients, mid, ses, [w] + rest) == Prepend([resp], tail);
      assert replies + ([resp] + tail.0) == (replies + [resp]) + tail.0;
    }
  }

  /** Every non-streaming command gets exactly one reply, in order, until the peer closes. */
  lemma OneReplyPerCommand(c: Consts, clients: U32, s: State, ses: Session,
                           cmds: seq<(Command, Env)>)
    requires forall i :: 0 <= i < |cmds| ==> !StreamingCommand(cmds[i].0)
    requires forall i :: 0 <= i < |cmds| ==> !DispatchPanics(ses, cmds[i].0, cmds[i].1)
    ensures var (sent, ending, after) := Serve(c, clients, s, ses, Deliver(cmds));
      var (replies, state) := Replay(c, clients, s, ses, cmds);
      sent == replies && |sent| == |cmds| && ending == Closed && after == state
  {
    ServeRepliesInOrder(c, clients, s, ses, cmds, []);
    assert Deliver(cmds) + [] == Deliver(cmds);
    var r := Replay(c, clients, s, ses, cmds);
    assert r.0 + [] == r.0;
  }

  /** A streaming command over TCP gets one `LocalOnly` and nothing after it is read. */
  lemma StreamingOverTcpRefused(c: Consts, clients: U32, s: State, tokenId: Option<string>,
                                cmd: Command, env: Env, rest: seq<Incoming>)
    requires StreamingCommand(cmd)
    ensures Serve(c, clients, s, Session(Tcp, tokenId), [Received(cmd, env, true)] + rest)
         == ([Error(LocalOnly)], StreamingRefused, s)
  {
  }

  /** A failed read or an idle timeout ends the loop with no reply and no change. */
  lemma ReadFailureEndsSession(c: Consts, clients: U32, s: State, ses: Session, e: Incoming,
                               rest: seq<Incoming>)
    requires !e.Received?
    ensures var (sent, ending, after) := Serve(c, clients, s, ses, [e] + rest);
      sent == [] && after == s && (ending == TimedOut <==> e.IdleTimeout?)
      && (ending == Closed <==> e.RecvFailed?)
  {
  }

  /** A whole TCP session, whatever it sends, leaves the token store as it found it. */
  lemma {:induction false} TcpSessionKeepsTokens(c: Consts, clients: U32, s: State,
                                                 tokenId: Option<string>, inbox: seq<Incoming>)
    ensures Serve(c, clients, s, Session(Tcp, tokenId), inbox).2.tokens == s.tokens
    decreases |inbox|
  {
    if |inbox| > 0 && inbox[0].Received? && !StreamingCommand(inbox[0].cmd) {
      var next := DispatchSpec(c, clients, s, Session(Tcp, tokenId), inbox[0].cmd, inbox[0].env).1;
      TcpKeepsTokens(c, clients, s, tokenId, inbox[0].cmd, inbox[0].env);
      TcpSessionKeepsTokens(c, clients, next, tokenId, inbox[1..]);
    }
  }

  // ----------------------------------------------------- PTY scrollback

  /** `RING_MAX`: bytes of PTY output kept for clients that attach late. */
  const RingMax: nat := 10_000

  /** `ring_append`'s result: the newest `min(RING_MAX, |buf| + |data|)` bytes of `buf + data`. */
  function RingAppend(buf: seq<byte>, data: seq<byte>): (r: seq<byte>)
    ensures |r| == if |buf| + |data| > RingMax then RingMax else |buf| + |data|
    ensures r == (buf + data)[|buf| + |data| - |r|..]
  {
    var all := buf + data;
    if |all| > RingMax then all[|all| - RingMax..] else all
  }

  /** `ShellRuntime::output_buf`. */
  class Scrollback {
    var bytes: seq<byte>

    constructor ()
      ensures bytes == []
    {
      bytes := [];
    }

    /** `ring_append`: extend, then drain the oldest excess bytes. */
    method Append(data: seq<byte>)
      modifies this
      ensures bytes == RingAppend(old(bytes), data)
    {
      bytes := bytes + data;
      if |bytes| > RingMax {
        var excess := |bytes| - RingMax;
        bytes := bytes[excess..];
      }
    }
  }

  /** Reaching exactly `RING_MAX` trims nothing; going over keeps the newest bytes, `data` last. */
  lemma RingTrimsOnlyPastMax(buf: seq<byte>, data: seq<byte>)
    ensures |buf| + |data| <= RingMax ==> RingAppend(buf, data) == buf + data
    ensures |data| <= RingMax ==>
              var r := RingAppend(buf, data);
              r[|r| - |data|..] == data
  {
    var all := buf + data;
    if |data| <= RingMax {
      var r := RingAppend(buf, data);
      assert r[|r| - |data|..] == all[|all| - |data|..];
      assert all[|all| - |data|..] == data;
    }
  }

  // ------------------------------------------------------ send-keys line

  /** `prompt.replace('\'', "'\\''")`: close the quote, an escaped quote, reopen. */
  function EscapeQuotes(p: string): (r: string)
    ensures |r| == |p| + 3 * CountIn(p, {'\''})
    ensures '\'' !in p ==> r == p
  {
    if '\'' !in p then
      ReplaceCharsNone(p, {'\''}, "'\\''");
      ReplaceChars(p, {'\''}, "'\\''")
    else ReplaceChars(p, {'\''}, "'\\''")
  }

  /** Each `'` becomes `'\''`, every other character stays, and the order is kept. */
  lemma EscapeQuotesPerChar(p: string, q: string, c: char)
    ensures EscapeQuotes(p + q) == EscapeQuotes(p) + EscapeQuotes(q)
    ensures EscapeQuotes("'") == "'\\''"
    ensures c != '\'' ==> EscapeQuotes([c]) == [c]
  {
    ReplaceCharsAppend(p, q, {'\''}, "'\\''");
    assert ReplaceChars("'", {'\''}, "'\\''") == "'\\''" + ReplaceChars("", {'\''}, "'\\''");
  }

  /**
   * `build_send_keys_cmd`: the parts joined by spaces and, unless the prompt is
   * empty, a space and one word that the shell reads back as exactly the prompt.
   */
  function BuildSendKeysCmd(parts: seq<string>, prompt: string): (r: string)
    ensures prompt == "" ==> r == Join(parts, " ")
    ensures prompt != "" ==>
              var base := Join(parts, " ");
              |r| > |base| && r[..|base| + 1] == base + " "
              && ShellWord(r[|base| + 1..], false) == Some(prompt)
  {
    if prompt == "" then Join(parts, " ")
    else
      var base := Join(parts, " ");
      var word := "'" + EscapeQuotes(prompt) + "'";
      var r := base + " " + word;
      assert r[..|base| + 1] == base + " " && r[|base| + 1..] == word;
      assert word[1..] == EscapeQuotes(prompt) + "'";
      EscapedReadsBack(prompt);
      r
  }

  function PrependOpt(c: char, r: Option<string>): Option<string> {
    match r
    case None => None
    case Some(s) => Some([c] + s)
  }

  /**
   * How a POSIX shell reads one word built from single-quoted runs and
   * backslash-escaped characters: `None` for an open quote or a blank outside
   * quotes, which would end the word.
   */
  function ShellWord(s: string, quoted: bool): Option<string>
    decreases |s|
  {
    if |s| == 0 then (if quoted then None else Some(""))
    else if quoted then
      if s[0] == '\'' then ShellWord(s[1..], false)
      else PrependOpt(s[0], ShellWord(s[1..], true))
    else if s[0] == '\'' then ShellWord(s[1..], true)
    else if s[0] == '\\' then
      if |s| < 2 then None else PrependOpt(s[1], ShellWord(s[2..], false))
    else if s[0] == ' ' || s[0] == '\t' || s[0] == '\n' then None
    else PrependOpt(s[0], ShellWord(s[1..], false))
  }

  lemma {:induction false} EscapedReadsBack(p: string)
    ensures ShellWord(EscapeQuotes(p) + "'", true) == Some(p)
    decreases |p|
  {
    if |p| == 0 {
      assert EscapeQuotes(p) + "'" == "'";
      assert ShellWord("'", true) == ShellWord("", false);
    } else {
      var rest := p[1..];
      EscapedReadsBack(rest);
      var tail := EscapeQuotes(rest) + "'";
      if p[0] == '\'' {
        var s := "'\\''" + tail;
        assert EscapeQuotes(p) + "'" == s;
        assert s[1..] == ['\\', '\''] + (['\''] + tail);
        assert s[3..] == ['\''] + tail && s[4..] == tail;
        assert ShellWord(s, true) == ShellWord(s[1..], false);
        assert ShellWord(s[1..], false) == PrependOpt('\'', ShellWord(s[3..], false));
        assert ShellWord(s[3..], false) == ShellWord(tail, true);
        assert p == ['\''] + rest;
      } else {
        var s := [p[0]] + tail;
        assert EscapeQuotes(p) + "'" == s;
        assert s[1..] == tail;
        assert p == [p[0]] + rest;
      }
    }
  }
}
