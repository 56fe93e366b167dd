/**
 * The dashboard's state (`tui/app.rs`): the latest repository snapshot from
 * the daemon, the selected workstream as an index into the flat list of all
 * workstreams, and the helpers the screen is drawn from. The input modes,
 * the typed text and the status line only drive the event loop and are not
 * part of this model.
 */
module TuiApp {
  import opened Wrappers
  import opened Strings
  import opened Proto
  import opened Search
  import ClientConfig

  // ------------------------------------------------------- positions

  /** `(ri, 0) … (ri, n - 1)`: one repository's workstreams. */
  function Row(ri: nat, n: nat): (r: seq<(nat, nat)>)
    ensures |r| == n && forall wi :: 0 <= wi < n ==> r[wi] == (ri, wi)
  {
    seq(n, wi requires 0 <= wi < n => (ri, wi))
  }

  /** The positions of the workstreams of `repos[ri..]`, repository by repository. */
  function PositionsFrom(repos: seq<Repository>, ri: nat): seq<(nat, nat)>
    requires ri <= |repos|
    decreases |repos| - ri
  {
    if ri == |repos| then [] else Row(ri, |repos[ri].workstreams|) + PositionsFrom(repos, ri + 1)
  }

  /** The number of workstreams in `repos[ri..]`. */
  function TotalFrom(repos: seq<Repository>, ri: nat): nat
    requires ri <= |repos|
    decreases |repos| - ri
  {
    if ri == |repos| then 0 else |repos[ri].workstreams| + TotalFrom(repos, ri + 1)
  }

  /** A position names a workstream of the snapshot. */
  predicate ValidPosition(repos: seq<Repository>, p: (nat, nat)) {
    p.0 < |repos| && p.1 < |repos[p.0].workstreams|
  }

  /**
   * The positions of `repos[ri..]` are as many as their workstreams, all
   * valid and at or after `ri`, strictly increasing in repo-major order, and
   * every workstream's position is among them.
   */
  lemma {:induction false} PositionsFromSpec(repos: seq<Repository>, ri: nat)
    requires ri <= |repos|
    ensures var ps := PositionsFrom(repos, ri);
      |ps| == TotalFrom(repos, ri)
      && (forall k :: 0 <= k < |ps| ==> ri <= ps[k].0 && ValidPosition(repos, ps[k]))
      && (forall a, b :: 0 <= a < b < |ps| ==> Before2(ps[a].0, ps[a].1, ps[b].0, ps[b].1))
      && (forall i, j :: ri <= i < |repos| && 0 <= j < |repos[i].workstreams| ==> (i, j) in ps)
  {
    PositionsFromCount(repos, ri);
    PositionsFromValid(repos, ri);
    PositionsFromOrdered(repos, ri);
    PositionsFromComplete(repos, ri);
  }

  lemma {:induction false} PositionsFromCount(repos: seq<Repository>, ri: nat)
    requires ri <= |repos|
    ensures |PositionsFrom(repos, ri)| == TotalFrom(repos, ri)
    decreases |repos| - ri
  {
    if ri < |repos| {
      PositionsFromCount(repos, ri + 1);
    }
  }

  lemma {:induction false} PositionsFromValid(repos: seq<Repository>, ri: nat)
    requires ri <= |repos|
    ensures forall k :: 0 <= k < |PositionsFrom(repos, ri)| ==>
              ri <= PositionsFrom(repos, ri)[k].0 && ValidPosition(repos, PositionsFrom(repos, ri)[k])
    decreases |repos| - ri
  {
    if ri < |repos| {
      PositionsFromValid(repos, ri + 1);
      var row := Row(ri, |repos[ri].workstreams|);
      var rest := PositionsFrom(repos, ri + 1);
      var ps := row + rest;
      assert PositionsFrom(repos, ri) == ps;
      forall k | 0 <= k < |ps|
        ensures ri <= ps[k].0 && ValidPosition(repos, ps[k])
      {
        if k < |row| {
          assert ps[k] == row[k];
        } else {
          assert ps[k] == rest[k - |row|];
        }
      }
    }
  }

  lemma {:induction false} PositionsFromOrdered(repos: seq<Repository>, ri: nat)
    requires ri <= |repos|
    ensures forall a, b :: 0 <= a < b < |PositionsFrom(repos, ri)| ==>
              Before2(PositionsFrom(repos, ri)[a].0, PositionsFrom(repos, ri)[a].1,
                      PositionsFrom(repos, ri)[b].0, PositionsFrom(repos, ri)[b].1)
    decreases |repos| - ri
  {
    if ri < |repos| {
      PositionsFromOrdered(repos, ri + 1);
      PositionsFromValid(repos, ri + 1);
      var row := Row(ri, |repos[ri].workstreams|);
      var rest := PositionsFrom(repos, ri + 1);
      var ps := row + rest;
      assert PositionsFrom(repos, ri) == ps;
      forall a, b | 0 <= a < b < |ps|
        ensures Before2(ps[a].0, ps[a].1, ps[b].0, ps[b].1)
      {
        if b < |row| {
          assert ps[a] == row[a] && ps[b] == row[b];
        } else if a < |row| {
          assert ps[a] == row[a] && ps[b] == rest[b - |row|];
        } else {
          assert ps[a] == rest[a - |row|] && ps[b] == rest[b - |row|];
        }
      }
    }
  }

  lemma {:induction false} PositionsFromComplete(repos: seq<Repository>, ri: nat)
    requires ri <= |repos|
    ensures forall i, j :: ri <= i < |repos| && 0 <= j < |repos[i].workstreams| ==>
              (i, j) in PositionsFrom(repos, ri)
    decreases |repos| - ri
  {
    if ri < |repos| {
      PositionsFromComplete(repos, ri + 1);
      var row := Row(ri, |repos[ri].workstreams|);
      var rest := PositionsFrom(repos, ri + 1);
      var ps := row + rest;
      assert PositionsFrom(repos, ri) == ps;
      forall i, j | ri <= i < |repos| && 0 <= j < |repos[i].workstreams|
        ensures (i, j) in ps
      {
        if i == ri {
          assert ps[j] == (i, j);
        } else {
          assert (i, j) in rest;
        }
      }
    }
  }

  /** `ws_positions`: every workstream's `(ri, wi)`, repository by repository. */
  function Positions(repos: seq<Repository>): seq<(nat, nat)> {
    PositionsFrom(repos, 0)
  }

  /** `total_workstreams`: the sum of the repositories' workstream counts. */
  function TotalWorkstreams(repos: seq<Repository>): nat {
    TotalFrom(repos, 0)
  }

  /**
   * The flat list has one valid entry per workstream, in strictly increasing
   * repo-major order, and contains every workstream; so its length is the total.
   */
  lemma PositionsSpec(repos: seq<Repository>)
    ensures var ps := Positions(repos);
      |ps| == TotalWorkstreams(repos)
      && (forall k :: 0 <= k < |ps| ==> ValidPosition(repos, ps[k]))
      && (forall a, b :: 0 <= a < b < |ps| ==> Before2(ps[a].0, ps[a].1, ps[b].0, ps[b].1))
      && (forall p :: ValidPosition(repos, p) ==> p in ps)
  {
    PositionsFromSpec(repos, 0);
    forall p | ValidPosition(repos, p)
      ensures p in Positions(repos)
    {
      assert (p.0, p.1) == p;
    }
  }

  // ---------------------------------------------------------- counts

  /** The number of `Running` agents in `agents`. */
  function CountRunning(agents: seq<Agent>): (n: nat)
    ensures n <= |agents|
  {
    if |agents| == 0 then 0
    else (if agents[0].status == AgentStatus.Running then 1 else 0) + CountRunning(agents[1..])
  }

  /** The count is zero iff no agent is running. */
  lemma {:induction false} CountRunningZero(agents: seq<Agent>)
    ensures CountRunning(agents) == 0 <==> forall i :: 0 <= i < |agents| ==> agents[i].status != AgentStatus.Running
  {
    if |agents| > 0 {
      CountRunningZero(agents[1..]);
      assert forall i :: 1 <= i < |agents| ==> agents[i] == agents[1..][i - 1];
    }
  }

  /** Counting distributes over concatenation. */
  lemma {:induction false} CountRunningAppend(a: seq<Agent>, b: seq<Agent>)
    ensures CountRunning(a + b) == CountRunning(a) + CountRunning(b)
  {
    if |a| > 0 {
      CountRunningAppend(a[1..], b);
      assert (a + b)[1..] == a[1..] + b;
    } else {
      assert a + b == b;
    }
  }

  /** `running_agents_count`. */
  function RunningAgentsCount(ws: Workstream): nat {
    CountRunning(ws.agents)
  }

  /** Every agent of every workstream, in order: the double `flat_map`. */
  function AllAgents(repos: seq<Repository>): seq<Agent> {
    if |repos| == 0 then [] else WsAgents(repos[0].workstreams) + AllAgents(repos[1..])
  }

  function WsAgents(wss: seq<Workstream>): seq<Agent> {
    if |wss| == 0 then [] else wss[0].agents + WsAgents(wss[1..])
  }

  /** `total_running_agents`: the running agents among all of them. */
  function TotalRunningAgents(repos: seq<Repository>): nat {
    CountRunning(AllAgents(repos))
  }

  /** The sum of the per-workstream counts of `wss`. */
  function SumCounts(wss: seq<Workstream>): nat {
    if |wss| == 0 then 0 else RunningAgentsCount(wss[0]) + SumCounts(wss[1..])
  }

  /** The sum of the per-workstream counts over every repository. */
  function SumCountsAll(repos: seq<Repository>): nat {
    if |repos| == 0 then 0 else SumCounts(repos[0].workstreams) + SumCountsAll(repos[1..])
  }

  lemma {:induction false} WsAgentsCount(wss: seq<Workstream>)
    ensures CountRunning(WsAgents(wss)) == SumCounts(wss)
  {
    if |wss| > 0 {
      WsAgentsCount(wss[1..]);
      CountRunningAppend(wss[0].agents, WsAgents(wss[1..]));
    }
  }

  /** The total is the sum of what the dashboard shows per workstream. */
  lemma {:induction false} TotalIsSumOfCounts(repos: seq<Repository>)
    ensures TotalRunningAgents(repos) == SumCountsAll(repos)
  {
    if |repos| > 0 {
      TotalIsSumOfCounts(repos[1..]);
      WsAgentsCount(repos[0].workstreams);
      CountRunningAppend(WsAgents(repos[0].workstreams), AllAgents(repos[1..]));
    }
  }

  // ------------------------------------------------------------ text

  /** `ws_status_str`. */
  function StatusText(s: WorkstreamStatus): (t: string)
    ensures (t == "Running" <==> s.Running?) && (t == "Idle" <==> s.Idle?) && (t == "Stopped" <==> s.Stopped?)
  {
    match s
    case Running => "Running"
    case Idle => "Idle"
    case Stopped => "Stopped"
  }

  /** The seconds `format_ago` reports: `now - ts`, saturating at 0. */
  function Elapsed(now: nat, ts: nat): nat {
    if now >= ts then now - ts else 0
  }

  /** `format_ago`, given the clock: seconds under a minute, then minutes, then hours. */
  function FormatAgo(now: nat, ts: nat): (t: string)
    ensures |t| > 5 && t[|t| - 4..] == " ago"
    ensures now <= ts ==> t == "0s ago"
  {
    var secs := Elapsed(now, ts);
    assert NatToString(0) == "0";
    if secs < 60 then NatToString(secs) + "s ago"
    else if secs < 3600 then NatToString(secs / 60) + "m ago"
    else NatToString(secs / 3600) + "h ago"
  }

  /**
   * The text is a number and a unit: the unit is the largest of s, m, h that
   * the elapsed time reaches, and the number is the elapsed time in it,
   * rounded down. A timestamp in the future reads as zero seconds.
   */
  lemma FormatAgoSpec(now: nat, ts: nat)
    ensures var t := FormatAgo(now, ts);
      var secs := Elapsed(now, ts);
      |t| > 5 && t[|t| - 4..] == " ago"
      && var (n, u) := (t[..|t| - 5], t[|t| - 5]);
      (forall i :: 0 <= i < |n| ==> IsDigit(n[i]))
      && (u == 's' <==> secs < 60) && (u == 'm' <==> 60 <= secs < 3600) && (u == 'h' <==> 3600 <= secs)
      && DecimalValue(n) == (if secs < 60 then secs else if secs < 3600 then secs / 60 else secs / 3600)
    ensures ts > now ==> FormatAgo(now, ts) == "0s ago"
  {
    var secs := Elapsed(now, ts);
    var v := if secs < 60 then secs else if secs < 3600 then secs / 60 else secs / 3600;
    var unit := if secs < 60 then "s ago" else if secs < 3600 then "m ago" else "h ago";
    var t := NatToString(v) + unit;
    assert FormatAgo(now, ts) == t;
    assert t[..|t| - 5] == NatToString(v);
    assert t[|t| - 5] == unit[0];
    assert t[|t| - 4..] == unit[1..];
    if ts > now {
      assert NatToString(0) == "0";
    }
  }

  // ------------------------------------------------------------- app

  class App {
    var repos: seq<Repository>
    var selectedWs: nat
    const isLocal: bool
    const connLabel: string
    const connEntry: ClientConfig.ConnectionEntry
    var lastRefresh: nat

    /** `App::new`: no repositories yet, the first position selected. */
    constructor (isLocal: bool, connLabel: string, connEntry: ClientConfig.ConnectionEntry, now: nat)
      ensures repos == [] && selectedWs == 0 && lastRefresh == now
      ensures this.isLocal == isLocal && this.connLabel == connLabel && this.connEntry == connEntry
    {
      repos := [];
      selectedWs := 0;
      this.isLocal := isLocal;
      this.connLabel := connLabel;
      this.connEntry := connEntry;
      lastRefresh := now;
    }

    /** The largest index `move_down` moves to: `total.saturating_sub(1)`. */
    function MaxIndex(): nat
      reads this
    {
      var total := TotalWorkstreams(repos);
      if total == 0 then 0 else total - 1
    }

    /** The selection is on a workstream, or at 0 when there is none. */
    predicate InBounds()
      reads this
    {
      selectedWs <= MaxIndex()
    }

    /** `move_up`: one step back, stopping at 0. */
    method MoveUp()
      modifies this
      ensures selectedWs == if old(selectedWs) > 0 then old(selectedWs) - 1 else 0
      ensures repos == old(repos) && lastRefresh == old(lastRefresh)
      ensures old(InBounds()) ==> InBounds()
    {
      if selectedWs > 0 {
        selectedWs := selectedWs - 1;
      }
    }

    /** `move_down`: one step on while below the last workstream. */
    method MoveDown()
      modifies this
      ensures selectedWs == if old(selectedWs) < old(MaxIndex()) then old(selectedWs) + 1 else old(selectedWs)
      ensures repos == old(repos) && lastRefresh == old(lastRefresh)
      ensures old(InBounds()) ==> InBounds()
    {
      var total := TotalWorkstreams(repos);
      var max := if total == 0 then 0 else total - 1;
      if selectedWs < max {
        selectedWs := selectedWs + 1;
      }
    }

    /** `selected`: the selected workstream's position, if the index is on one. */
    function Selected(): (r: Option<(nat, nat)>)
      reads this
      ensures r.Some? <==> selectedWs < TotalWorkstreams(repos)
      ensures r.Some? ==> ValidPosition(repos, r.value)
                          && selectedWs < |Positions(repos)| && r.value == Positions(repos)[selectedWs]
    {
      PositionsSpec(repos);
      var ps := Positions(repos);
      if selectedWs < |ps| then Some(ps[selectedWs]) else None
    }

    /** The selected workstream itself. */
    function SelectedWorkstream(): (r: Option<Workstream>)
      reads this
      ensures r.Some? <==> Selected().Some?
      ensures r.Some? ==> r.value == repos[Selected().value.0].workstreams[Selected().value.1]
    {
      match Selected()
      case None => None
      case Some((ri, wi)) => Some(repos[ri].workstreams[wi])
    }

    /** `selected_ws_id`. */
    function SelectedWsId(): (r: Option<string>)
      reads this
      ensures r.Some? <==> Selected().Some?
      ensures r.Some? ==> r.value == SelectedWorkstream().value.id
    {
      match SelectedWorkstream()
      case None => None
      case Some(ws) => Some(ws.id)
    }

    /** `selected_tmux_session`. */
    function SelectedTmuxSession(): (r: Option<string>)
      reads this
      ensures r.Some? <==> Selected().Some?
      ensures r.Some? ==> r.value == SelectedWorkstream().value.tmuxSession
    {
      match SelectedWorkstream()
      case None => None
      case Some(ws) => Some(ws.tmuxSession)
    }

    /** `selected_first_shell_id`: the first shell of the selection that has not exited. */
    function SelectedFirstShellId(): (r: Option<string>)
      reads this
      ensures SelectedWorkstream().None? ==> r.None?
      ensures SelectedWorkstream().Some? ==>
                var shells := SelectedWorkstream().value.shells;
                (r.None? <==> forall i :: 0 <= i < |shells| ==> shells[i].status == ShellStatus.Exited)
                && (r.Some? ==> exists i :: 0 <= i < |shells| && shells[i].status != ShellStatus.Exited
                                  && shells[i].id == r.value
                                  && forall j :: 0 <= j < i ==> shells[j].status == ShellStatus.Exited)
    {
      match SelectedWorkstream()
      case None => None
      case Some(ws) =>
        match FirstIndex(ws.shells, (s: ShellSession) => s.status != ShellStatus.Exited)
        case None => None
        case Some(i) => Some(ws.shells[i].id)
    }

    /**
     * `update_repos`: replace the snapshot and pull the selection back onto
     * the last workstream if it fell off the end (0 if there are none).
     */
    method UpdateRepos(newRepos: seq<Repository>, now: nat)
      modifies this
      ensures repos == newRepos && lastRefresh == now
      ensures TotalWorkstreams(newRepos) == 0 ==> selectedWs == 0
      ensures TotalWorkstreams(newRepos) > 0 ==>
                selectedWs == if old(selectedWs) < TotalWorkstreams(newRepos) then old(selectedWs)
                              else TotalWorkstreams(newRepos) - 1
      ensures InBounds()
      ensures TotalWorkstreams(newRepos) > 0 ==> Selected().Some?
    {
      var total := TotalWorkstreams(newRepos);
      if total == 0 {
        selectedWs := 0;
      } else if selectedWs >= total {
        selectedWs := total - 1;
      }
      repos := newRepos;
      lastRefresh := now;
    }
  }
}
