/**
 * The standalone tool's background worker (`src/worker.rs`): the dashboard
 * sends it requests, at most one per category at a time, and drains its
 * responses. The two channels are queues held by the handle; the worker's
 * loop is a method over the requests it receives. git, gh, tmux and the
 * registered repositories are parameters: `world(i)` is what they report
 * while the `i`-th request is handled.
 */
module BackgroundWorker {
  import opened Wrappers
  import opened RepoMeta
  import Tmux

  /** The category requests are de-duplicated by. */
  datatype RequestKey = RefreshWorkstreams | CapturePane | LoadPrCache | FetchPrStructured | ListBranches | GitFetch

  datatype WorkerRequest =
    | RefreshWorkstreams
    | CapturePane(session: string, window: string)
    | LoadPrCache(repoPaths: seq<string>)
    | FetchPrStructured(repoPath: string, prNumber: nat)
    | ListBranches(repoPath: string)
    | GitFetch(repoPaths: seq<string>)
    | Shutdown

  /** One workstream as the dashboard lists it. */
  datatype WorkstreamData = WorkstreamData(
    repoName: string, branch: string, session: string, active: bool, repoPath: string, createdAt: int)

  datatype WorkerResponse =
    | WorkstreamsRefreshed(items: seq<WorkstreamData>)
    | PaneCaptured(session: string, window: string, content: string)
    | PrCacheLoaded(entries: seq<(string, nat)>)
    | PrStructuredFetched(prNumber: nat, data: Result<string, string>)
    | BranchesListed(branches: seq<string>)
    | GitFetchCompleted

  /** What the outside world reports: `None` where the source falls back to a default. */
  datatype World = World(
    repos: Option<seq<RepoRecord>>,
    tmux: seq<string> -> Result<string, string>,
    capture: (string, string) -> string,
    listPrs: string -> Option<seq<(string, nat)>>,
    prView: (string, nat) -> Result<string, string>,
    branches: string -> Option<seq<string>>)

  /** `WorkerRequest::key`: every request but `Shutdown` has a category. */
  function Key(req: WorkerRequest): (k: Option<RequestKey>)
    ensures k.None? <==> req.Shutdown?
  {
    match req
    case RefreshWorkstreams => Some(RequestKey.RefreshWorkstreams)
    case CapturePane(_, _) => Some(RequestKey.CapturePane)
    case LoadPrCache(_) => Some(RequestKey.LoadPrCache)
    case FetchPrStructured(_, _) => Some(RequestKey.FetchPrStructured)
    case ListBranches(_) => Some(RequestKey.ListBranches)
    case GitFetch(_) => Some(RequestKey.GitFetch)
    case Shutdown => None
  }

  /** `WorkerResponse::key`. */
  function ResponseKey(resp: WorkerResponse): (k: RequestKey)
    ensures k == RequestKey.RefreshWorkstreams <==> resp.WorkstreamsRefreshed?
    ensures k == RequestKey.CapturePane <==> resp.PaneCaptured?
    ensures k == RequestKey.LoadPrCache <==> resp.PrCacheLoaded?
    ensures k == RequestKey.FetchPrStructured <==> resp.PrStructuredFetched?
    ensures k == RequestKey.ListBranches <==> resp.BranchesListed?
    ensures k == RequestKey.GitFetch <==> resp.GitFetchCompleted?
  {
    match resp
    case WorkstreamsRefreshed(_) => RequestKey.RefreshWorkstreams
    case PaneCaptured(_, _, _) => RequestKey.CapturePane
    case PrCacheLoaded(_) => RequestKey.LoadPrCache
    case PrStructuredFetched(_, _) => RequestKey.FetchPrStructured
    case BranchesListed(_) => RequestKey.ListBranches
    case GitFetchCompleted => RequestKey.GitFetch
  }

  // ---------------------------------------------------------- answers

  function Item(repo: RepoRecord, ws: WorkstreamEntry, active: seq<string>): WorkstreamData {
    var session := Tmux.SessionName(repo.name, ws.branch);
    WorkstreamData(repo.name, ws.branch, session, session in active, repo.path, ws.createdAt)
  }

  /** The items for the entries `ws` of `repo`, in order. */
  function EntryItems(repo: RepoRecord, ws: seq<WorkstreamEntry>, active: seq<string>): (r: seq<WorkstreamData>)
    ensures |r| == |ws| && forall j :: 0 <= j < |ws| ==> r[j] == Item(repo, ws[j], active)
  {
    if |ws| == 0 then [] else EntryItems(repo, ws[..|ws| - 1], active) + [Item(repo, ws[|ws| - 1], active)]
  }

  /** Every registered workstream, repository by repository. */
  function Items(repos: seq<RepoRecord>, active: seq<string>): seq<WorkstreamData> {
    if |repos| == 0 then []
    else Items(repos[..|repos| - 1], active)
         + EntryItems(repos[|repos| - 1], repos[|repos| - 1].workstreams, active)
  }

  /**
   * Each item names its tmux session by `session_name` and is active exactly
   * when tmux lists that session; the items are one per registered workstream.
   */
  lemma {:induction false} ItemsSpec(repos: seq<RepoRecord>, active: seq<string>)
    ensures forall it :: it in Items(repos, active) ==>
              it.session == Tmux.SessionName(it.repoName, it.branch) && (it.active <==> it.session in active)
    ensures |Items(repos, active)| == EntryCount(repos)
  {
    if |repos| > 0 {
      ItemsSpec(repos[..|repos| - 1], active);
      var last := repos[|repos| - 1];
      var tail := EntryItems(last, last.workstreams, active);
      forall it | it in tail
        ensures it.session == Tmux.SessionName(it.repoName, it.branch) && (it.active <==> it.session in active)
      {
        var j :| 0 <= j < |tail| && tail[j] == it;
      }
    }
  }

  function EntryCount(repos: seq<RepoRecord>): nat {
    if |repos| == 0 then 0 else EntryCount(repos[..|repos| - 1]) + |repos[|repos| - 1].workstreams|
  }

  /** The refresh's inner loop: the items of one repository's entries, appended to `items`. */
  method AppendEntryItems(items: seq<WorkstreamData>, repo: RepoRecord, active: seq<string>)
    returns (out: seq<WorkstreamData>)
    ensures out == items + EntryItems(repo, repo.workstreams, active)
  {
    out := items;
    var j := 0;
    while j < |repo.workstreams|
      invariant 0 <= j <= |repo.workstreams|
      invariant out == items + EntryItems(repo, repo.workstreams[..j], active)
    {
      assert repo.workstreams[..j + 1][..j] == repo.workstreams[..j];
      out := out + [Item(repo, repo.workstreams[j], active)];
      j := j + 1;
    }
    assert repo.workstreams[..j] == repo.workstreams;
  }

  /** The refresh's two nested loops. */
  method RefreshItems(repos: seq<RepoRecord>, active: seq<string>) returns (items: seq<WorkstreamData>)
    ensures items == Items(repos, active)
  {
    items := [];
    var i := 0;
    while i < |repos|
      invariant 0 <= i <= |repos| && items == Items(repos[..i], active)
    {
      ghost var done := repos[..i + 1];
      assert done[..i] == repos[..i] && done[i] == repos[i];
      items := AppendEntryItems(items, repos[i], active);
      i := i + 1;
    }
    assert repos[..i] == repos;
  }

  /** The open-PR entries of the paths in `paths`, keyed `<path>/<branch>`; failed lookups add none. */
  function PrEntries(paths: seq<string>, listPrs: string -> Option<seq<(string, nat)>>): seq<(string, nat)> {
    if |paths| == 0 then []
    else PrEntries(paths[..|paths| - 1], listPrs) + PathEntries(paths[|paths| - 1], listPrs(paths[|paths| - 1]))
  }

  function PathEntries(path: string, prs: Option<seq<(string, nat)>>): (r: seq<(string, nat)>)
    ensures prs.None? ==> r == []
    ensures prs.Some? ==>
              |r| == |prs.value|
              && forall k :: 0 <= k < |r| ==> r[k] == (path + "/" + prs.value[k].0, prs.value[k].1)
  {
    match prs
    case None => []
    case Some(list) => seq(|list|, k requires 0 <= k < |list| => (path + "/" + list[k].0, list[k].1))
  }

  lemma PrEntriesSnoc(paths: seq<string>, listPrs: string -> Option<seq<(string, nat)>>, i: nat)
    requires i < |paths|
    ensures PrEntries(paths[..i + 1], listPrs) == PrEntries(paths[..i], listPrs) + PathEntries(paths[i], listPrs(paths[i]))
  {
    assert paths[..i + 1][..i] == paths[..i];
  }

  lemma PathEntriesSnoc(path: string, prs: seq<(string, nat)>, k: nat)
    requires k < |prs|
    ensures PathEntries(path, Some(prs[..k + 1]))
         == PathEntries(path, Some(prs[..k])) + [(path + "/" + prs[k].0, prs[k].1)]
  {
  }

  /** The PR-cache loop's inner loop: one path's open PRs, keyed `<path>/<branch>`, appended to `entries`. */
  method AppendPathEntries(entries: seq<(string, nat)>, path: string, prs: seq<(string, nat)>)
    returns (out: seq<(string, nat)>)
    ensures out == entries + PathEntries(path, Some(prs))
  {
    out := entries;
    var k := 0;
    while k < |prs|
      invariant 0 <= k <= |prs|
      invariant out == entries + PathEntries(path, Some(prs[..k]))
    {
      PathEntriesSnoc(path, prs, k);
      out := out + [(path + "/" + prs[k].0, prs[k].1)];
      k := k + 1;
    }
    assert prs[..k] == prs;
  }

  /** The PR-cache loop. */
  method LoadEntries(paths: seq<string>, listPrs: string -> Option<seq<(string, nat)>>) returns (entries: seq<(string, nat)>)
    ensures entries == PrEntries(paths, listPrs)
  {
    entries := [];
    var i := 0;
    while i < |paths|
      invariant 0 <= i <= |paths| && entries == PrEntries(paths[..i], listPrs)
    {
      var path := paths[i];
      PrEntriesSnoc(paths, listPrs, i);
      var found := listPrs(path);
      if found.Some? {
        entries := AppendPathEntries(entries, path, found.value);
      }
      i := i + 1;
    }
    assert paths[..i] == paths;
  }

  /** The response `worker_loop` sends for one request, its category the request's. */
  function Answer(req: WorkerRequest, w: World): (r: WorkerResponse)
    requires !req.Shutdown?
    ensures ResponseKey(r) == Key(req).value
  {
    match req
    case RefreshWorkstreams => WorkstreamsRefreshed(Items(w.repos.GetOr([]), Tmux.ListSessions(w.tmux)))
    case CapturePane(s, win) => PaneCaptured(s, win, w.capture(s, win))
    case LoadPrCache(paths) => PrCacheLoaded(PrEntries(paths, w.listPrs))
    case FetchPrStructured(path, n) =>
      PrStructuredFetched(n, match w.prView(path, n)
                             case Success(json) => Success(json)
                             case Failure(e) => Failure("Error fetching PR: " + e))
    case ListBranches(path) => BranchesListed(w.branches(path).GetOr([]))
    case GitFetch(_) => GitFetchCompleted
  }

  /** One arm of the loop's `match`. */
  method Handle(req: WorkerRequest, w: World) returns (resp: WorkerResponse)
    requires !req.Shutdown?
    ensures resp == Answer(req, w)
  {
    match req
    case RefreshWorkstreams =>
      var items := RefreshItems(w.repos.GetOr([]), Tmux.ListSessions(w.tmux));
      resp := WorkstreamsRefreshed(items);
    case LoadPrCache(paths) =>
      var entries := LoadEntries(paths, w.listPrs);
      resp := PrCacheLoaded(entries);
    case CapturePane(_, _) => resp := Answer(req, w);
    case FetchPrStructured(_, _) => resp := Answer(req, w);
    case ListBranches(_) => resp := Answer(req, w);
    case GitFetch(_) => resp := Answer(req, w);
  }

  /**
   * `worker_loop`: answer the requests in order, one response each, until a
   * `Shutdown` or the end of the channel.
   */
  method WorkerLoop(reqs: seq<WorkerRequest>, world: nat -> World) returns (resps: seq<WorkerResponse>)
    ensures |resps| <= |reqs| && (|resps| == |reqs| || reqs[|resps|].Shutdown?)
    ensures forall i :: 0 <= i < |resps| ==> !reqs[i].Shutdown? && resps[i] == Answer(reqs[i], world(i))
    ensures forall i :: 0 <= i < |resps| ==> ResponseKey(resps[i]) == Key(reqs[i]).value
  {
    resps := [];
    var i := 0;
    while i < |reqs| && !reqs[i].Shutdown?
      invariant 0 <= i <= |reqs| && |resps| == i
      invariant forall k :: 0 <= k < i ==> !reqs[k].Shutdown? && resps[k] == Answer(reqs[k], world(k))
    {
      var resp := Handle(reqs[i], world(i));
      ghost var prev := resps;
      resps := resps + [resp];
      assert forall k :: 0 <= k < i ==> resps[k] == prev[k];
      assert resps[i] == resp;
      i := i + 1;
    }
    forall k | 0 <= k < |resps|
      ensures ResponseKey(resps[k]) == Key(reqs[k]).value
    {
      assert resps[k] == Answer(reqs[k], world(k));
    }
  }

  // ----------------------------------------------------------- handle

  /** The categories of `resps`. */
  function KeysOf(resps: seq<WorkerResponse>): (ks: set<RequestKey>)
    ensures forall i :: 0 <= i < |resps| ==> ResponseKey(resps[i]) in ks
    ensures forall k :: k in ks ==> exists i :: 0 <= i < |resps| && ResponseKey(resps[i]) == k
  {
    set i | 0 <= i < |resps| :: ResponseKey(resps[i])
  }

  /** `send` on the in-flight set alone: whether the request goes out, and the new set. */
  function SendStep(inFlight: set<RequestKey>, req: WorkerRequest): (set<RequestKey>, bool) {
    match Key(req)
    case None => (inFlight, true)
    case Some(k) => if k in inFlight then (inFlight, false) else (inFlight + {k}, true)
  }

  /**
   * A second request of a category already in flight is refused, whatever
   * its parameters, until a response of that category is drained; `Shutdown`
   * is never refused.
   */
  lemma SendStepSpec(inFlight: set<RequestKey>, r1: WorkerRequest, r2: WorkerRequest, resps: seq<WorkerResponse>)
    ensures SendStep(inFlight, WorkerRequest.Shutdown) == (inFlight, true)
    ensures Key(r1).Some? && Key(r1) == Key(r2) ==> !SendStep(SendStep(inFlight, r1).0, r2).1
    ensures Key(r1).Some? && SendStep(inFlight, r1).1 ==>
              (SendStep(SendStep(inFlight, r1).0 - KeysOf(resps), r2).1
               <==> Key(r2).None? || Key(r2).value !in inFlight + {Key(r1).value} - KeysOf(resps))
  {
  }

  class Worker {
    /** Categories sent and not yet answered. */
    var inFlight: set<RequestKey>
    /** The request channel: sent, not yet taken by the worker. */
    var requests: seq<WorkerRequest>
    /** The response channel: answered, not yet drained. */
    var responses: seq<WorkerResponse>

    /** `Worker::spawn`: empty channels and nothing in flight. */
    constructor ()
      ensures inFlight == {} && requests == [] && responses == []
    {
      inFlight := {};
      requests := [];
      responses := [];
    }

    /** `send`: refuse a request whose category is in flight; otherwise record it and queue it. */
    method Send(req: WorkerRequest) returns (sent: bool)
      modifies this
      ensures (inFlight, sent) == SendStep(old(inFlight), req)
      ensures requests == if sent then old(requests) + [req] else old(requests)
      ensures responses == old(responses)
    {
      var key := Key(req);
      if key.Some? && key.value in inFlight {
        return false;
      }
      if key.Some? {
        inFlight := inFlight + {key.value};
      }
      requests := requests + [req];
      sent := true;
    }

    /** `try_recv_all`: drain every pending response, in arrival order, clearing their categories. */
    method TryRecvAll() returns (got: seq<WorkerResponse>)
      modifies this
      ensures got == old(responses) && responses == []
      ensures inFlight == old(inFlight) - KeysOf(old(responses))
      ensures requests == old(requests)
    {
      got := [];
      ghost var pending := responses;
      while |responses| > 0
        invariant got + responses == pending
        invariant inFlight == old(inFlight) - KeysOf(got)
        invariant requests == old(requests)
        decreases |responses|
      {
        var resp := responses[0];
        inFlight := inFlight - {ResponseKey(resp)};
        KeysOfSnoc(got, resp);
        got := got + [resp];
        responses := responses[1..];
      }
    }

    /**
     * One turn of the worker thread's loop: take the oldest request and queue
     * its answer, computed against `w`; a `Shutdown` ends the loop. With an
     * empty channel the thread waits and nothing changes.
     */
    method Step(w: World) returns (stopped: bool)
      modifies this
      ensures inFlight == old(inFlight)
      ensures |old(requests)| == 0 ==>
                !stopped && requests == old(requests) && responses == old(responses)
      ensures |old(requests)| > 0 ==>
                requests == old(requests)[1..]
                && (stopped <==> old(requests)[0].Shutdown?)
                && responses == if stopped then old(responses)
                                else old(responses) + [Answer(old(requests)[0], w)]
    {
      if |requests| == 0 {
        return false;
      }
      var req := requests[0];
      requests := requests[1..];
      if req.Shutdown? {
        return true;
      }
      var resp := Handle(req, w);
      responses := responses + [resp];
      stopped := false;
    }

    /** `shutdown`: queue `Shutdown`, which is never de-duplicated. Joining the thread is not modelled. */
    method Shutdown()
      modifies this
      ensures requests == old(requests) + [WorkerRequest.Shutdown]
      ensures inFlight == old(inFlight) && responses == old(responses)
    {
      requests := requests + [WorkerRequest.Shutdown];
    }
  }

  // ------------------------------------------------- in-flight bookkeeping

  /** How many queued requests are of category `k` (`Shutdown` has none). */
  function RequestCount(reqs: seq<WorkerRequest>, k: RequestKey): (n: nat)
    ensures n <= |reqs|
  {
    if |reqs| == 0 then 0
    else RequestCount(reqs[..|reqs| - 1], k) + if Key(reqs[|reqs| - 1]) == Some(k) then 1 else 0
  }

  /** How many queued responses are of category `k`. */
  function ResponseCount(resps: seq<WorkerResponse>, k: RequestKey): (n: nat)
    ensures n <= |resps|
  {
    if |resps| == 0 then 0
    else ResponseCount(resps[..|resps| - 1], k) + if ResponseKey(resps[|resps| - 1]) == k then 1 else 0
  }

  /**
   * What `in_flight` is meant to track: a category is in flight exactly
   * when one request or response of it is queued, and never more than one is.
   */
  predicate Tracks(inFlight: set<RequestKey>, reqs: seq<WorkerRequest>, resps: seq<WorkerResponse>) {
    forall k :: RequestCount(reqs, k) + ResponseCount(resps, k) == if k in inFlight then 1 else 0
  }

  /** Counting from the front: the first request, then the rest. */
  lemma {:induction false} RequestCountFront(reqs: seq<WorkerRequest>, k: RequestKey)
    requires |reqs| > 0
    ensures RequestCount(reqs, k)
         == (if Key(reqs[0]) == Some(k) then 1 else 0) + RequestCount(reqs[1..], k)
    decreases |reqs|
  {
    var n := |reqs|;
    if n == 1 {
      assert reqs[..0] == [] && reqs[1..] == [];
    } else {
      var init := reqs[..n - 1];
      var tail := reqs[1..];
      RequestCountFront(init, k);
      assert init[0] == reqs[0];
      assert init[1..] == tail[..|tail| - 1];
      assert tail[|tail| - 1] == reqs[n - 1];
    }
  }

  lemma {:induction false} ResponseCountIn(resps: seq<WorkerResponse>, k: RequestKey)
    ensures k in KeysOf(resps) <==> ResponseCount(resps, k) > 0
    decreases |resps|
  {
    if |resps| > 0 {
      var init := resps[..|resps| - 1];
      var last := resps[|resps| - 1];
      assert resps == init + [last];
      ResponseCountIn(init, k);
      KeysOfSnoc(init, last);
    }
  }

  /** A fresh worker tracks nothing. */
  lemma SpawnTracks()
    ensures Tracks({}, [], [])
  {
  }

  /** `send` keeps the bookkeeping: an accepted request of a new category adds exactly it. */
  lemma SendKeepsTracks(inFlight: set<RequestKey>, reqs: seq<WorkerRequest>,
                        resps: seq<WorkerResponse>, req: WorkerRequest)
    requires Tracks(inFlight, reqs, resps)
    ensures var (after, sent) := SendStep(inFlight, req);
      Tracks(after, if sent then reqs + [req] else reqs, resps)
  {
    var (after, sent) := SendStep(inFlight, req);
    if sent {
      var r := reqs + [req];
      assert r[..|r| - 1] == reqs;
      forall k ensures RequestCount(r, k) + ResponseCount(resps, k) == if k in after then 1 else 0 {
        assert RequestCount(reqs, k) + ResponseCount(resps, k) == if k in inFlight then 1 else 0;
      }
    }
  }

  /** The worker thread answering a request moves its category from one queue to the other. */
  lemma StepKeepsTracks(inFlight: set<RequestKey>, reqs: seq<WorkerRequest>,
                        resps: seq<WorkerResponse>, w: World)
    requires Tracks(inFlight, reqs, resps)
    requires |reqs| > 0
    ensures Tracks(inFlight, reqs[1..],
                   if reqs[0].Shutdown? then resps else resps + [Answer(reqs[0], w)])
  {
    var r := if reqs[0].Shutdown? then resps else resps + [Answer(reqs[0], w)];
    assert !reqs[0].Shutdown? ==> r[..|r| - 1] == resps && ResponseKey(r[|r| - 1]) == Key(reqs[0]).value;
    forall k ensures RequestCount(reqs[1..], k) + ResponseCount(r, k) == if k in inFlight then 1 else 0 {
      RequestCountFront(reqs, k);
      assert RequestCount(reqs, k) + ResponseCount(resps, k) == if k in inFlight then 1 else 0;
    }
  }

  /** Draining the responses clears exactly their categories and keeps the bookkeeping. */
  lemma DrainKeepsTracks(inFlight: set<RequestKey>, reqs: seq<WorkerRequest>,
                         resps: seq<WorkerResponse>)
    requires Tracks(inFlight, reqs, resps)
    ensures Tracks(inFlight - KeysOf(resps), reqs, [])
  {
    forall k ensures RequestCount(reqs, k) + ResponseCount([], k)
                     == if k in inFlight - KeysOf(resps) then 1 else 0 {
      ResponseCountIn(resps, k);
      assert RequestCount(reqs, k) + ResponseCount(resps, k) == if k in inFlight then 1 else 0;
    }
  }

  lemma KeysOfSnoc(rs: seq<WorkerResponse>, r: WorkerResponse)
    ensures KeysOf(rs + [r]) == KeysOf(rs) + {ResponseKey(r)}
  {
    var a := KeysOf(rs + [r]);
    forall k | k in a
      ensures k in KeysOf(rs) + {ResponseKey(r)}
    {
      var i :| 0 <= i < |rs + [r]| && ResponseKey((rs + [r])[i]) == k;
      if i < |rs| {
        assert (rs + [r])[i] == rs[i];
      }
    }
    forall i | 0 <= i < |rs|
      ensures ResponseKey(rs[i]) in a
    {
      assert (rs + [r])[i] == rs[i];
    }
    assert (rs + [r])[|rs|] == r;
  }
}
