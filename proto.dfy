/**
 * The vex wire vocabulary: domain records the daemon stores and returns,
 * the `Command` and `Response` sums exchanged over a connection, and the
 * `<token_id>:<token_secret>` pairing string.
 *
 * `Command` and `Response` hold every variant the current daemon's dispatcher
 * matches, including the shell, default-branch and in-place agent variants
 * that the protocol file in this snapshot does not list yet.
 */
module Proto {
  import opened Wrappers
  import opened Hex
  import Strings

  /** Port vexd listens on for TLS TCP connections. */
  const DefaultTcpPort: nat := 7422

  /** Seconds since the Unix epoch, as the daemon's `u64` time stamps. */
  type Timestamp = int

  const U64Modulus: nat := 0x1_0000_0000_0000_0000

  /** Values of Rust's `u64`, as `expire_secs` travels on the wire. */
  type U64 = n: nat | n < U64Modulus

  // ----------------------------------------------------------- domain types

  datatype WorkstreamStatus = Idle | Running | Stopped

  datatype AgentStatus = Running | Exited | Failed

  datatype ShellStatus = Active | Detached | Exited

  datatype Agent = Agent(
    id: string,
    workstreamId: string,
    tmuxWindow: nat,
    prompt: string,
    status: AgentStatus,
    exitCode: Option<int>,
    spawnedAt: Timestamp,
    exitedAt: Option<Timestamp>)

  datatype ShellSession = ShellSession(
    id: string,
    workstreamId: string,
    tmuxWindow: nat,
    status: ShellStatus,
    startedAt: Timestamp,
    exitedAt: Option<Timestamp>,
    exitCode: Option<int>)

  datatype Workstream = Workstream(
    id: string,
    name: string,
    repoId: string,
    branch: string,
    worktreePath: string,
    tmuxSession: string,
    status: WorkstreamStatus,
    agents: seq<Agent>,
    shells: seq<ShellSession>,
    createdAt: Timestamp)

  datatype Repository = Repository(
    id: string,
    name: string,
    path: string,
    defaultBranch: string,
    registeredAt: Timestamp,
    workstreams: seq<Workstream>)

  // ------------------------------------------------------------- wire types

  datatype Transport = Unix | Tcp

  datatype VexProtoError = Unauthorized | LocalOnly | NotFound | Internal(message: string)

  datatype DaemonStatus = DaemonStatus(uptimeSecs: nat, connectedClients: nat, version: string)

  /** Answer to `PairCreate`: the only time the plaintext secret leaves the daemon. */
  datatype PairPayload = PairPayload(tokenId: string, tokenSecret: string, host: Option<string>)

  /** A stored token as `PairList` shows it: times as RFC 3339 text, no hash. */
  datatype PairedClient = PairedClient(
    tokenId: string,
    tokenLabel: Option<string>,
    createdAt: string,
    expiresAt: Option<string>,
    lastSeen: Option<string>)

  datatype ClientInfo = ClientInfo(tokenId: Option<string>, isLocal: bool)

  /** First frame of every TCP connection, before any command. */
  datatype AuthToken = AuthToken(tokenId: string, tokenSecret: string)

  datatype Command =
    | Status
    | Whoami
    | PairCreate(tokenLabel: Option<string>, expireSecs: Option<U64>)
    | PairList
    | PairRevoke(id: string)
    | PairRevokeAll
    | RepoRegister(path: string)
    | RepoList
    | RepoUnregister(repoId: string)
    | RepoSetDefaultBranch(repoId: string, branch: string)
    | WorkstreamCreate(repoId: string, wsName: Option<string>, wsBranch: Option<string>,
                       fromRef: Option<string>, fetchLatest: bool)
    | WorkstreamList(repoFilter: Option<string>)
    | WorkstreamDelete(workstreamId: string)
    | AgentSpawn(workstreamId: string, prompt: string)
    | AgentSpawnInPlace(workstreamId: string, tmuxWindow: nat, agentPrompt: Option<string>)
    | AgentKill(agentId: string)
    | AgentList(workstreamId: string)
    | ShellSpawn(workstreamId: string)
    | ShellKill(shellId: string)
    | ShellList(workstreamId: string)
    | ShellRegister(workstreamId: string, tmuxWindow: nat)
    | AttachShell(shellId: string)
    | DetachShell(shellId: string)
    | PtyInput(shellId: string)
    | PtyResize(shellId: string)

  datatype Response =
    | Pong
    | Ok
    | DaemonStatusReply(status: DaemonStatus)
    | ClientInfoReply(info: ClientInfo)
    | Pair(payload: PairPayload)
    | PairedClientReply(client: PairedClient)
    | PairedClients(clients: seq<PairedClient>)
    | Revoked(count: nat)
    | Error(error: VexProtoError)
    | RepoRegistered(repo: Repository)
    | RepoListReply(repos: seq<Repository>)
    | RepoUnregistered
    | RepoDefaultBranchSet
    | WorkstreamCreated(workstream: Workstream)
    | WorkstreamListReply(repos: seq<Repository>)
    | WorkstreamDeleted
    | AgentSpawned(agent: Agent)
    | AgentSpawnedInPlace(agent: Agent, execCmd: string)
    | AgentKilled
    | AgentListReply(agents: seq<Agent>)
    | ShellSpawned(shell: ShellSession)
    | ShellKilled
    | ShellListReply(shells: seq<ShellSession>)
    | ShellRegistered(shellId: string)
    | ShellAttached

  // --------------------------------------------------------- pairing string

  /** `PairPayload::pairing_string`: `<token_id>:<token_secret>`. */
  function PairingString(p: PairPayload): (r: string)
    ensures |r| == |p.tokenId| + 1 + |p.tokenSecret|
    ensures r[..|p.tokenId|] == p.tokenId && r[|p.tokenId|] == ':'
    ensures r[|p.tokenId| + 1..] == p.tokenSecret
  {
    p.tokenId + ":" + p.tokenSecret
  }

  /**
   * The client splits a pairing string at its first `':'`; that recovers the
   * id and the secret whenever the id itself has no `':'`, as generated ids
   * (`tok_` and hex digits) never do.
   */
  lemma PairingStringSplits(p: PairPayload)
    requires ':' !in p.tokenId
    ensures Strings.SplitOnce(PairingString(p), ':') == Some((p.tokenId, p.tokenSecret))
  {
    Strings.SplitOnceOfJoin(p.tokenId, ':', p.tokenSecret);
  }

  /** The secret is free to contain `':'`: only the id must not. */
  lemma PairingStringIdWithColon()
    ensures Strings.SplitOnce(PairingString(PairPayload("a:b", "c", None)), ':')
         == Some(("a", "b:c"))
  {
    Strings.SplitOnceOfJoin("a", ':', "b:c");
    assert PairingString(PairPayload("a:b", "c", None)) == "a" + [':'] + "b:c";
  }
}
