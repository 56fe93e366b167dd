/**
 * The daemon's repository store (`repo_store.rs`): registered repositories
 * with their workstreams, agents and shells, the id helpers, the read-only
 * searches, and the two operations that rewrite nested state in place,
 * `refresh_ws_status` and `reconcile`.
 *
 * The searches only read the repositories and are functions of the
 * `repos` sequence; the store itself is the `RepoStore` class.
 */
module RepoStore {
  import opened Wrappers
  import opened Hex
  import opened Strings
  import opened Proto
  import opened Search

  // --------------------------------------------------------------- ids

  /** `gen_id(prefix)` with the three random bytes as a parameter. */
  function GenId(prefix: string, bytes: seq<byte>): (r: string)
    requires |bytes| == 3
    ensures StartsWith(r, prefix + "_") && |r| == |prefix| + 7
    ensures forall i :: |prefix| + 1 <= i < |r| ==> IsLowerHexDigit(r[i])
  {
    var hex := BytesToHex(bytes);
    var r := prefix + "_" + hex;
    assert r[..|prefix| + 1] == prefix + "_";
    assert forall i :: |prefix| + 1 <= i < |r| ==> r[i] == hex[i - |prefix| - 1];
    r
  }

  /** Different random bytes give different ids under the same prefix. */
  lemma GenIdInjective(prefix: string, a: seq<byte>, b: seq<byte>)
    requires |a| == 3 && |b| == 3
    requires GenId(prefix, a) == GenId(prefix, b)
    ensures a == b
  {
    var n := |prefix| + 1;
    assert BytesToHex(a) == GenId(prefix, a)[n..];
    assert BytesToHex(b) == GenId(prefix, b)[n..];
    BytesToHexInjective(a, b);
  }

  /** `next_agent_id`: `agent_` and the count of existing agents plus one, at least 3 digits. */
  function NextAgentId(agents: seq<Agent>): (r: string)
    ensures StartsWith(r, "agent_")
    ensures forall i :: 6 <= i < |r| ==> IsDigit(r[i])
    ensures DecimalValue(r[6..]) == |agents| + 1
    ensures |agents| < 999 ==> |r| == 9
  {
    var digits := ZeroPad(|agents| + 1, 3);
    var r := "agent_" + digits;
    assert r[6..] == digits;
    assert r[..6] == "agent_";
    SmallNatWidth(|agents| + 1);
    r
  }

  lemma SmallNatWidth(n: nat)
    ensures n < 1000 ==> |NatToString(n)| <= 3
  {
    if 10 <= n < 1000 {
      assert |NatToString(n)| == |NatToString(n / 10)| + 1;
      if n / 10 >= 10 {
        assert |NatToString(n / 10)| == |NatToString(n / 100)| + 1;
      }
    }
  }

  // ----------------------------------------------------------- searches

  function FindByPath(repos: seq<Repository>, path: string): (r: Option<Repository>)
    ensures r.None? <==> forall i :: 0 <= i < |repos| ==> repos[i].path != path
    ensures r.Some? ==> exists i :: 0 <= i < |repos| && repos[i] == r.value
                          && r.value.path == path
                          && forall j :: 0 <= j < i ==> repos[j].path != path
  {
    match FirstIndex(repos, (r: Repository) => r.path == path)
    case None => None
    case Some(i) => Some(repos[i])
  }

  function FindById(repos: seq<Repository>, id: string): (r: Option<Repository>)
    ensures r.None? <==> forall i :: 0 <= i < |repos| ==> repos[i].id != id
    ensures r.Some? ==> exists i :: 0 <= i < |repos| && repos[i] == r.value
                          && r.value.id == id
                          && forall j :: 0 <= j < i ==> repos[j].id != id
  {
    match FirstIndex(repos, (r: Repository) => r.id == id)
    case None => None
    case Some(i) => Some(repos[i])
  }

  function WsGrid(repos: seq<Repository>): (g: seq<seq<Workstream>>)
    ensures |g| == |repos| && forall i :: 0 <= i < |repos| ==> g[i] == repos[i].workstreams
  {
    seq(|repos|, i requires 0 <= i < |repos| => repos[i].workstreams)
  }

  function AgentCube(repos: seq<Repository>): (c: seq<seq<seq<Agent>>>)
    ensures |c| == |repos|
    ensures forall i :: 0 <= i < |repos| ==> |c[i]| == |repos[i].workstreams|
    ensures forall i, j :: 0 <= i < |repos| && 0 <= j < |repos[i].workstreams| ==>
              c[i][j] == repos[i].workstreams[j].agents
  {
    seq(|repos|, i requires 0 <= i < |repos| =>
      seq(|repos[i].workstreams|, j requires 0 <= j < |repos[i].workstreams| =>
        repos[i].workstreams[j].agents))
  }

  function ShellCube(repos: seq<Repository>): (c: seq<seq<seq<ShellSession>>>)
    ensures |c| == |repos|
    ensures forall i :: 0 <= i < |repos| ==> |c[i]| == |repos[i].workstreams|
    ensures forall i, j :: 0 <= i < |repos| && 0 <= j < |repos[i].workstreams| ==>
              c[i][j] == repos[i].workstreams[j].shells
  {
    seq(|repos|, i requires 0 <= i < |repos| =>
      seq(|repos[i].workstreams|, j requires 0 <= j < |repos[i].workstreams| =>
        repos[i].workstreams[j].shells))
  }

  /** `ws_indices`: the first `(ri, wi)`, repo by repo, whose workstream has the id. */
  function WsIndices(repos: seq<Repository>, wsId: string): (r: Option<(nat, nat)>)
    ensures r.None? <==>
      forall i, j :: 0 <= i < |repos| && 0 <= j < |repos[i].workstreams|
                     ==> repos[i].workstreams[j].id != wsId
    ensures r.Some? ==>
      var (ri, wi) := r.value;
      ri < |repos| && wi < |repos[ri].workstreams| && repos[ri].workstreams[wi].id == wsId
      && forall i, j ::
           (0 <= i < |repos| && 0 <= j < |repos[i].workstreams| && Before2(i, j, ri, wi))
           ==> repos[i].workstreams[j].id != wsId
  {
    var g := WsGrid(repos);
    FirstIn2(g, (w: Workstream) => w.id == wsId)
  }

  /** `agent_indices`: the first `(ri, wi, ai)` whose agent has the id. */
  function AgentIndices(repos: seq<Repository>, agentId: string): (r: Option<(nat, nat, nat)>)
    ensures r.None? <==>
      forall i, j, k :: 0 <= i < |repos| && 0 <= j < |repos[i].workstreams|
                        && 0 <= k < |repos[i].workstreams[j].agents|
                        ==> repos[i].workstreams[j].agents[k].id != agentId
    ensures r.Some? ==>
      var (ri, wi, ai) := r.value;
      ri < |repos| && wi < |repos[ri].workstreams| && ai < |repos[ri].workstreams[wi].agents|
      && repos[ri].workstreams[wi].agents[ai].id == agentId
      && forall i, j, k ::
           (0 <= i < |repos| && 0 <= j < |repos[i].workstreams|
            && 0 <= k < |repos[i].workstreams[j].agents| && Before3(i, j, k, ri, wi, ai))
           ==> repos[i].workstreams[j].agents[k].id != agentId
  {
    var c := AgentCube(repos);
    FirstIn3(c, (a: Agent) => a.id == agentId)
  }

  /** `shell_indices`: the first `(ri, wi, si)` whose shell has the id. */
  function ShellIndices(repos: seq<Repository>, shellId: string): (r: Option<(nat, nat, nat)>)
    ensures r.None? <==>
      forall i, j, k :: 0 <= i < |repos| && 0 <= j < |repos[i].workstreams|
                        && 0 <= k < |repos[i].workstreams[j].shells|
                        ==> repos[i].workstreams[j].shells[k].id != shellId
    ensures r.Some? ==>
      var (ri, wi, si) := r.value;
      ri < |repos| && wi < |repos[ri].workstreams| && si < |repos[ri].workstreams[wi].shells|
      && repos[ri].workstreams[wi].shells[si].id == shellId
      && forall i, j, k ::
           (0 <= i < |repos| && 0 <= j < |repos[i].workstreams|
            && 0 <= k < |repos[i].workstreams[j].shells| && Before3(i, j, k, ri, wi, si))
           ==> repos[i].workstreams[j].shells[k].id != shellId
  {
    var c := ShellCube(repos);
    FirstIn3(c, (s: ShellSession) => s.id == shellId)
  }

  /** `get_workstream`: the workstream `ws_indices` finds. */
  function GetWorkstream(repos: seq<Repository>, wsId: string): (r: Option<Workstream>)
    ensures r.None? <==> WsIndices(repos, wsId).None?
    ensures r.Some? ==>
              r.value.id == wsId
              && r.value == repos[WsIndices(repos, wsId).value.0].workstreams[WsIndices(repos, wsId).value.1]
  {
    match WsIndices(repos, wsId)
    case None => None
    case Some((ri, wi)) => Some(repos[ri].workstreams[wi])
  }

  // ---------------------------------------------------- status refresh

  predicate AnyRunning(agents: seq<Agent>) {
    exists i :: 0 <= i < |agents| && agents[i].status == AgentStatus.Running
  }

  /** The repositories with workstream `(ri, wi)` replaced by `ws`. */
  function WithWorkstream(repos: seq<Repository>, ri: nat, wi: nat, ws: Workstream)
    : (r: seq<Repository>)
    requires ri < |repos| && wi < |repos[ri].workstreams|
    ensures |r| == |repos| && |r[ri].workstreams| == |repos[ri].workstreams|
    ensures r[ri].workstreams[wi] == ws
    ensures forall i :: 0 <= i < |repos| && i != ri ==> r[i] == repos[i]
    ensures forall j :: 0 <= j < |repos[ri].workstreams| && j != wi ==>
              r[ri].workstreams[j] == repos[ri].workstreams[j]
    ensures r[ri] == repos[ri].(workstreams := r[ri].workstreams)
  {
    repos[ri := repos[ri].(workstreams := repos[ri].workstreams[wi := ws])]
  }

  lemma WithSameWorkstream(repos: seq<Repository>, ri: nat, wi: nat)
    requires ri < |repos| && wi < |repos[ri].workstreams|
    ensures WithWorkstream(repos, ri, wi, repos[ri].workstreams[wi]) == repos
  {
    assert repos[ri].workstreams[wi := repos[ri].workstreams[wi]] == repos[ri].workstreams;
  }

  /** A workstream's status after `refresh_ws_status`. */
  function RefreshedStatus(ws: Workstream): (s: WorkstreamStatus)
    ensures ws.status == WorkstreamStatus.Stopped ==> s == WorkstreamStatus.Stopped
    ensures ws.status != WorkstreamStatus.Stopped ==>
              (s == WorkstreamStatus.Running <==> AnyRunning(ws.agents))
              && (s == WorkstreamStatus.Idle <==> !AnyRunning(ws.agents))
  {
    if ws.status == WorkstreamStatus.Stopped then ws.status
    else if exists i :: 0 <= i < |ws.agents| && ws.agents[i].status == AgentStatus.Running
    then WorkstreamStatus.Running
    else WorkstreamStatus.Idle
  }

  // --------------------------------------------------------- reconcile

  /** What `reconcile` does to one agent of a dead session. */
  function ExitAgent(a: Agent, now: Timestamp): Agent {
    if a.status == AgentStatus.Running
    then a.(status := AgentStatus.Exited, exitedAt := Some(now))
    else a
  }

  function ExitRunning(agents: seq<Agent>, now: Timestamp): (r: seq<Agent>)
    ensures |r| == |agents| && forall i :: 0 <= i < |agents| ==> r[i] == ExitAgent(agents[i], now)
  {
    if |agents| == 0 then []
    else ExitRunning(agents[..|agents| - 1], now) + [ExitAgent(agents[|agents| - 1], now)]
  }

  /** `(ws_id, agent_id, tmux_window)` for each Running agent, in order. */
  function RunningTriples(wsId: string, agents: seq<Agent>): (r: seq<(string, string, nat)>)
    ensures |r| <= |agents|
    ensures forall k :: 0 <= k < |r| ==> r[k].0 == wsId
    ensures (|r| == 0) <==> !AnyRunning(agents)
  {
    if |agents| == 0 then []
    else
      var init := agents[..|agents| - 1];
      var a := agents[|agents| - 1];
      assert forall i :: 0 <= i < |init| ==> init[i] == agents[i];
      RunningTriples(wsId, init)
        + (if a.status == AgentStatus.Running then [(wsId, a.id, a.tmuxWindow)] else [])
  }

  /** A triple is listed exactly when it belongs to a Running agent. */
  lemma {:induction false} RunningTriplesMembers(wsId: string, agents: seq<Agent>, t: (string, string, nat))
    ensures t in RunningTriples(wsId, agents) <==>
              exists i :: 0 <= i < |agents| && agents[i].status == AgentStatus.Running
                          && t == (wsId, agents[i].id, agents[i].tmuxWindow)
    decreases |agents|
  {
    if |agents| > 0 {
      var init := agents[..|agents| - 1];
      var a := agents[|agents| - 1];
      assert forall i :: 0 <= i < |init| ==> init[i] == agents[i];
      RunningTriplesMembers(wsId, init, t);
    }
  }

  /** The triples keep the agents' order: listing a concatenation lists each part in turn. */
  lemma {:induction false} RunningTriplesAppend(wsId: string, a: seq<Agent>, b: seq<Agent>)
    ensures RunningTriples(wsId, a + b) == RunningTriples(wsId, a) + RunningTriples(wsId, b)
    decreases |b|
  {
    if |b| == 0 {
      assert a + b == a;
    } else {
      var init := b[..|b| - 1];
      var last := b[|b| - 1];
      assert b == init + [last];
      assert a + b == (a + init) + [last];
      assert (a + b)[..|a + b| - 1] == a + init;
      RunningTriplesAppend(wsId, a, init);
    }
  }

  /** One workstream after `reconcile`: Stopped ones are skipped, dead sessions stop. */
  function ReconcileWs(ws: Workstream, alive: set<string>, now: Timestamp): Workstream {
    if ws.status == WorkstreamStatus.Stopped then ws
    else if ws.tmuxSession !in alive
    then ws.(status := WorkstreamStatus.Stopped, agents := ExitRunning(ws.agents, now))
    else ws
  }

  /** What one workstream contributes to `reconcile`'s result. */
  function Survivors(ws: Workstream, alive: set<string>): seq<(string, string, nat)> {
    if ws.status != WorkstreamStatus.Stopped && ws.tmuxSession in alive
    then RunningTriples(ws.id, ws.agents)
    else []
  }

  function ReconcileWss(wss: seq<Workstream>, alive: set<string>, now: Timestamp)
    : (r: seq<Workstream>)
    ensures |r| == |wss| && forall i :: 0 <= i < |wss| ==> r[i] == ReconcileWs(wss[i], alive, now)
  {
    if |wss| == 0 then []
    else ReconcileWss(wss[..|wss| - 1], alive, now) + [ReconcileWs(wss[|wss| - 1], alive, now)]
  }

  function SurvivorsWss(wss: seq<Workstream>, alive: set<string>): seq<(string, string, nat)> {
    if |wss| == 0 then []
    else SurvivorsWss(wss[..|wss| - 1], alive) + Survivors(wss[|wss| - 1], alive)
  }

  function ReconcileRepo(repo: Repository, alive: set<string>, now: Timestamp): Repository {
    repo.(workstreams := ReconcileWss(repo.workstreams, alive, now))
  }

  function ReconcileRepos(repos: seq<Repository>, alive: set<string>, now: Timestamp)
    : (r: seq<Repository>)
    ensures |r| == |repos| && forall i :: 0 <= i < |repos| ==> r[i] == ReconcileRepo(repos[i], alive, now)
  {
    if |repos| == 0 then []
    else ReconcileRepos(repos[..|repos| - 1], alive, now) + [ReconcileRepo(repos[|repos| - 1], alive, now)]
  }

  function SurvivorsRepos(repos: seq<Repository>, alive: set<string>): seq<(string, string, nat)> {
    if |repos| == 0 then []
    else SurvivorsRepos(repos[..|repos| - 1], alive) + SurvivorsWss(repos[|repos| - 1].workstreams, alive)
  }

  /** Agents of a dead session: each Running one becomes Exited at `now`, the others stay. */
  method ExitAgents(agents: seq<Agent>, now: Timestamp) returns (r: seq<Agent>)
    ensures r == ExitRunning(agents, now)
  {
    r := [];
    var i := 0;
    while i < |agents|
      invariant 0 <= i <= |agents|
      invariant r == ExitRunning(agents[..i], now)
    {
      assert agents[..i + 1][..i] == agents[..i];
      var a := agents[i];
      if a.status == AgentStatus.Running {
        a := a.(status := AgentStatus.Exited, exitedAt := Some(now));
      }
      r := r + [a];
      i := i + 1;
    }
    assert agents[..i] == agents;
  }

  /** The still-running agents of a live session, for monitor restart. */
  method CollectRunning(ws: Workstream) returns (r: seq<(string, string, nat)>)
    ensures r == RunningTriples(ws.id, ws.agents)
  {
    r := [];
    var i := 0;
    while i < |ws.agents|
      invariant 0 <= i <= |ws.agents|
      invariant r == RunningTriples(ws.id, ws.agents[..i])
    {
      assert ws.agents[..i + 1][..i] == ws.agents[..i];
      var a := ws.agents[i];
      if a.status == AgentStatus.Running {
        r := r + [(ws.id, a.id, a.tmuxWindow)];
      }
      i := i + 1;
    }
    assert ws.agents[..i] == ws.agents;
  }

  /** The inner `for ws in &mut repo.workstreams` loop of `reconcile`. */
  method ReconcileWorkstreams(wss: seq<Workstream>, alive: set<string>, now: Timestamp)
    returns (out: seq<Workstream>, survivors: seq<(string, string, nat)>)
    ensures out == ReconcileWss(wss, alive, now)
    ensures survivors == SurvivorsWss(wss, alive)
  {
    out, survivors := [], [];
    var wi := 0;
    while wi < |wss|
      invariant 0 <= wi <= |wss|
      invariant out == ReconcileWss(wss[..wi], alive, now)
      invariant survivors == SurvivorsWss(wss[..wi], alive)
    {
      assert wss[..wi + 1][..wi] == wss[..wi];
      var ws := wss[wi];
      if ws.status == WorkstreamStatus.Stopped {
        out := out + [ws];
      } else if ws.tmuxSession !in alive {
        var agents := ExitAgents(ws.agents, now);
        out := out + [ws.(status := WorkstreamStatus.Stopped, agents := agents)];
      } else {
        var running := CollectRunning(ws);
        survivors := survivors + running;
        out := out + [ws];
      }
      wi := wi + 1;
    }
    assert wss[..wi] == wss;
  }

  // ------------------------------------------------------------ the store

  class RepoStore {
    var repos: seq<Repository>

    /** `RepoStore::load`: the repositories read from disk (none when the file is absent). */
    constructor (loaded: seq<Repository>)
      ensures repos == loaded
    {
      repos := loaded;
    }

    /**
     * `refresh_ws_status`: a workstream that is not Stopped becomes Running
     * when one of its agents runs and Idle otherwise; nothing else changes.
     */
    method RefreshWsStatus(wsId: string)
      modifies this
      ensures WsIndices(old(repos), wsId).None? ==> repos == old(repos)
      ensures WsIndices(old(repos), wsId).Some? ==>
        var (ri, wi) := WsIndices(old(repos), wsId).value;
        var ws := old(repos)[ri].workstreams[wi];
        repos == WithWorkstream(old(repos), ri, wi, ws.(status := RefreshedStatus(ws)))
    {
      match WsIndices(repos, wsId)
      case None =>
      case Some((ri, wi)) =>
        var ws := repos[ri].workstreams[wi];
        var anyRunning := exists i :: 0 <= i < |ws.agents| && ws.agents[i].status == AgentStatus.Running;
        if ws.status != WorkstreamStatus.Stopped {
          var status := if anyRunning then WorkstreamStatus.Running else WorkstreamStatus.Idle;
          repos := WithWorkstream(repos, ri, wi, ws.(status := status));
        } else {
          assert ws.(status := RefreshedStatus(ws)) == ws;
          WithSameWorkstream(repos, ri, wi);
        }
    }

    /**
     * `reconcile`, with the set of live tmux sessions and the clock as
     * parameters: every workstream whose session is gone is stopped and its
     * running agents exit; live ones report their running agents.
     */
    method Reconcile(alive: set<string>, now: Timestamp) returns (stillRunning: seq<(string, string, nat)>)
      modifies this
      ensures repos == ReconcileRepos(old(repos), alive, now)
      ensures stillRunning == SurvivorsRepos(old(repos), alive)
    {
      var all := repos;
      var out: seq<Repository> := [];
      stillRunning := [];
      var ri := 0;
      while ri < |all|
        invariant 0 <= ri <= |all|
        invariant out == ReconcileRepos(all[..ri], alive, now)
        invariant stillRunning == SurvivorsRepos(all[..ri], alive)
      {
        ghost var done := all[..ri + 1];
        assert done[..ri] == all[..ri] && done[ri] == all[ri];
        assert ReconcileRepos(done, alive, now)
            == ReconcileRepos(all[..ri], alive, now) + [ReconcileRepo(all[ri], alive, now)];
        assert SurvivorsRepos(done, alive)
            == SurvivorsRepos(all[..ri], alive) + SurvivorsWss(all[ri].workstreams, alive);
        var repo := all[ri];
        var wss, survivors := ReconcileWorkstreams(repo.workstreams, alive, now);
        out := out + [repo.(workstreams := wss)];
        stillRunning := stillRunning + survivors;
        ri := ri + 1;
      }
      assert all[..ri] == all;
      repos := out;
    }
  }

  // ------------------------------------------------------------ properties

  /** `refresh_ws_status` touches nothing but the one status field. */
  lemma RefreshTouchesOnlyStatus(repos: seq<Repository>, ri: nat, wi: nat)
    requires ri < |repos| && wi < |repos[ri].workstreams|
    ensures var ws := repos[ri].workstreams[wi];
      var r := WithWorkstream(repos, ri, wi, ws.(status := RefreshedStatus(ws)));
      && r[ri].workstreams[wi].agents == ws.agents
      && r[ri].workstreams[wi].shells == ws.shells
      && r[ri].workstreams[wi].id == ws.id
      && (ws.status == WorkstreamStatus.Stopped ==> r == repos)
  {
    var ws := repos[ri].workstreams[wi];
    if ws.status == WorkstreamStatus.Stopped {
      assert ws.(status := RefreshedStatus(ws)) == ws;
      WithSameWorkstream(repos, ri, wi);
    }
  }

  /** After `reconcile`, no workstream outside the live set is left running or idle. */
  lemma ReconciledDeadAreStopped(repos: seq<Repository>, alive: set<string>, now: Timestamp,
                                 ri: nat, wi: nat)
    requires ri < |repos| && wi < |repos[ri].workstreams|
    requires repos[ri].workstreams[wi].tmuxSession !in alive
    ensures var ws := ReconcileRepos(repos, alive, now)[ri].workstreams[wi];
      ws.status == WorkstreamStatus.Stopped
      && !AnyRunning(if repos[ri].workstreams[wi].status == WorkstreamStatus.Stopped then []
                     else ws.agents)
  {
    var ws := repos[ri].workstreams[wi];
    if ws.status != WorkstreamStatus.Stopped {
      var agents := ExitRunning(ws.agents, now);
      assert forall i :: 0 <= i < |agents| ==> agents[i].status != AgentStatus.Running;
    }
  }

  /** Workstreams with a live session, and Stopped ones, come through unchanged. */
  lemma ReconcileKeepsLiveAndStopped(repos: seq<Repository>, alive: set<string>, now: Timestamp,
                                     ri: nat, wi: nat)
    requires ri < |repos| && wi < |repos[ri].workstreams|
    requires repos[ri].workstreams[wi].tmuxSession in alive
          || repos[ri].workstreams[wi].status == WorkstreamStatus.Stopped
    ensures ReconcileRepos(repos, alive, now)[ri].workstreams[wi] == repos[ri].workstreams[wi]
  {
  }

  /** Reconciling twice against the same live set changes nothing the second time. */
  lemma ReconcileIdempotent(repos: seq<Repository>, alive: set<string>, now: Timestamp,
                            later: Timestamp)
    ensures ReconcileRepos(ReconcileRepos(repos, alive, now), alive, later)
         == ReconcileRepos(repos, alive, now)
  {
    var once := ReconcileRepos(repos, alive, now);
    var twice := ReconcileRepos(once, alive, later);
    forall i | 0 <= i < |repos| ensures twice[i] == once[i] {
      ReconcileRepoTwice(repos[i], alive, now, later);
    }
  }

  lemma ReconcileRepoTwice(repo: Repository, alive: set<string>, now: Timestamp, later: Timestamp)
    ensures ReconcileRepo(ReconcileRepo(repo, alive, now), alive, later) == ReconcileRepo(repo, alive, now)
  {
    var a := ReconcileWss(repo.workstreams, alive, now);
    var b := ReconcileWss(a, alive, later);
    forall j | 0 <= j < |a| ensures b[j] == a[j] {
      ReconcileWsTwice(repo.workstreams[j], alive, now, later);
    }
    assert a == b;
  }

  /** A reconciled workstream is either Stopped or has a live session, so a second pass keeps it. */
  lemma ReconcileWsTwice(ws: Workstream, alive: set<string>, now: Timestamp, later: Timestamp)
    ensures ReconcileWs(ReconcileWs(ws, alive, now), alive, later) == ReconcileWs(ws, alive, now)
  {
  }

  /** A live session with no Running agent contributes nothing to the restart list. */
  lemma NoSurvivorsWithoutRunning(ws: Workstream, alive: set<string>)
    requires !AnyRunning(ws.agents)
    ensures Survivors(ws, alive) == []
  {
  }

  lemma NextAgentIdFirst()
    ensures NextAgentId([]) == "agent_001"
  {
    assert NatToString(1) == "1";
    assert Zeros(2) == "00";
  }
}
