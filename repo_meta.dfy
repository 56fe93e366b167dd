/**
 * A repository registered with the standalone `vex` tool (`src/repo.rs`):
 * its metadata and the list of workstreams, one per branch, that the
 * commands add and remove. Loading and saving the YAML file, git and the
 * clock are not modelled; the creation time is a parameter.
 */
module RepoMeta {
  import opened Wrappers
  import opened Strings

  datatype WorkstreamEntry = WorkstreamEntry(branch: string, createdAt: int, prNumber: Option<nat>)

  /** `RepoMetadata` as read from its YAML file. */
  datatype RepoRecord = RepoRecord(name: string, path: string, defaultBranch: string,
                                   workstreams: seq<WorkstreamEntry>)

  /** Some entry is for `branch`. */
  predicate HasBranch(ws: seq<WorkstreamEntry>, branch: string) {
    exists i :: 0 <= i < |ws| && ws[i].branch == branch
  }

  /** `iter().any(|w| w.branch == branch)`. */
  function AnyBranch(ws: seq<WorkstreamEntry>, branch: string): (r: bool)
    ensures r <==> HasBranch(ws, branch)
  {
    if |ws| == 0 then false
    else ws[0].branch == branch || (assert forall i :: 0 <= i < |ws[1..]| ==> ws[1..][i] == ws[i + 1];
                                    AnyBranch(ws[1..], branch))
  }

  /** The invariant the editing operations keep: one entry per branch. */
  predicate UniqueBranches(ws: seq<WorkstreamEntry>) {
    forall i, j :: 0 <= i < j < |ws| ==> ws[i].branch != ws[j].branch
  }

  /** `ws` without its entries for `branch`, the rest in order. */
  function Without(ws: seq<WorkstreamEntry>, branch: string): (r: seq<WorkstreamEntry>)
    ensures |r| <= |ws|
  {
    if |ws| == 0 then []
    else (if ws[0].branch == branch then [] else [ws[0]]) + Without(ws[1..], branch)
  }

  /** Dropping entries distributes over concatenation, so the kept ones stay in order. */
  lemma {:induction false} WithoutAppend(a: seq<WorkstreamEntry>, b: seq<WorkstreamEntry>, branch: string)
    ensures Without(a + b, branch) == Without(a, branch) + Without(b, branch)
  {
    if |a| == 0 {
      assert a + b == b;
      assert Without(a, branch) == [];
    } else {
      var ab := a + b;
      var head := if a[0].branch == branch then [] else [a[0]];
      assert ab[0] == a[0] && ab[1..] == a[1..] + b;
      calc {
        Without(ab, branch);
        head + Without(a[1..] + b, branch);
        { WithoutAppend(a[1..], b, branch); }
        head + (Without(a[1..], branch) + Without(b, branch));
        (head + Without(a[1..], branch)) + Without(b, branch);
        Without(a, branch) + Without(b, branch);
      }
    }
  }

  /** The entries kept are exactly those for other branches. */
  lemma {:induction false} WithoutMembers(ws: seq<WorkstreamEntry>, branch: string)
    ensures forall e :: e in Without(ws, branch) <==> e in ws && e.branch != branch
  {
    if |ws| > 0 {
      WithoutMembers(ws[1..], branch);
      assert ws == [ws[0]] + ws[1..];
    }
  }

  /** Nothing to drop leaves the list as it was. */
  lemma {:induction false} WithoutAbsent(ws: seq<WorkstreamEntry>, branch: string)
    requires !HasBranch(ws, branch)
    ensures Without(ws, branch) == ws
  {
    if |ws| > 0 {
      assert forall i :: 0 <= i < |ws[1..]| ==> ws[1..][i] == ws[i + 1];
      WithoutAbsent(ws[1..], branch);
      assert ws[0].branch != branch;
      assert ws == [ws[0]] + ws[1..];
    }
  }

  /** The list `add_workstream` leaves: a new entry only for a branch not yet listed. */
  function Added(ws: seq<WorkstreamEntry>, branch: string, prNumber: Option<nat>, now: int)
    : (r: seq<WorkstreamEntry>)
    ensures HasBranch(r, branch)
    ensures |ws| <= |r| <= |ws| + 1 && r[..|ws|] == ws
    ensures HasBranch(ws, branch) ==> r == ws
  {
    if HasBranch(ws, branch) then ws
    else
      var r := ws + [WorkstreamEntry(branch, now, prNumber)];
      assert r[|ws|].branch == branch;
      r
  }

  /** Adding the same branch a second time changes nothing. */
  lemma AddedIdempotent(ws: seq<WorkstreamEntry>, branch: string, p1: Option<nat>, t1: int, p2: Option<nat>, t2: int)
    ensures Added(Added(ws, branch, p1, t1), branch, p2, t2) == Added(ws, branch, p1, t1)
  {
    var once := Added(ws, branch, p1, t1);
    assert once[|once| - 1].branch == branch || HasBranch(ws, branch);
  }

  /**
   * Adding a branch lists it, and a newly listed branch carries the given PR
   * number at the end; one entry per branch is kept.
   */
  lemma AddedSpec(ws: seq<WorkstreamEntry>, branch: string, prNumber: Option<nat>, now: int)
    ensures var r := Added(ws, branch, prNumber, now);
      HasBranch(r, branch)
      && (!HasBranch(ws, branch) ==> |r| == |ws| + 1 && r[|ws|] == WorkstreamEntry(branch, now, prNumber))
      && (UniqueBranches(ws) ==> UniqueBranches(r))
  {
    var r := Added(ws, branch, prNumber, now);
    if !HasBranch(ws, branch) {
      assert r[|ws|].branch == branch;
      if UniqueBranches(ws) {
        forall i, j | 0 <= i < j < |r|
          ensures r[i].branch != r[j].branch
        {
          if j == |ws| {
            assert ws[i] == r[i];
          }
        }
      }
    }
  }

  /** Removing a branch unlists it and keeps one entry per branch. */
  lemma WithoutSpec(ws: seq<WorkstreamEntry>, branch: string)
    ensures !HasBranch(Without(ws, branch), branch)
    ensures UniqueBranches(ws) ==> UniqueBranches(Without(ws, branch))
    decreases |ws|
  {
    var r := Without(ws, branch);
    WithoutMembers(ws, branch);
    if |ws| > 0 && UniqueBranches(ws) {
      WithoutSpec(ws[1..], branch);
      var tail := Without(ws[1..], branch);
      if ws[0].branch != branch {
        assert r == [ws[0]] + tail;
        forall j | 0 < j < |r|
          ensures r[0].branch != r[j].branch
        {
          WithoutMembers(ws[1..], branch);
          assert r[j] in tail;
          var k :| 0 <= k < |ws[1..]| && ws[1..][k] == r[j];
          assert ws[k + 1] == r[j];
        }
      }
    }
  }

  /** Removing one branch keeps every other branch listed as it was. */
  lemma WithoutKeepsOthers(ws: seq<WorkstreamEntry>, branch: string, other: string)
    requires other != branch
    ensures HasBranch(Without(ws, branch), other) <==> HasBranch(ws, other)
  {
    WithoutMembers(ws, branch);
    var r := Without(ws, branch);
    if HasBranch(ws, other) {
      var i :| 0 <= i < |ws| && ws[i].branch == other;
      assert ws[i] in r;
    }
    if HasBranch(r, other) {
      var i :| 0 <= i < |r| && r[i].branch == other;
      assert r[i] in ws;
    }
  }

  class RepoMetadata {
    var name: string
    var path: string
    var defaultBranch: string
    var workstreams: seq<WorkstreamEntry>

    /** Metadata as `init_repo` builds it or `load` reads it. */
    constructor (name: string, path: string, defaultBranch: string, workstreams: seq<WorkstreamEntry>)
      ensures this.name == name && this.path == path && this.defaultBranch == defaultBranch
      ensures this.workstreams == workstreams
    {
      this.name := name;
      this.path := path;
      this.defaultBranch := defaultBranch;
      this.workstreams := workstreams;
    }

    /** `has_workstream`: whether some entry is for `branch`. */
    function HasWorkstream(branch: string): (r: bool)
      reads this
      ensures r <==> HasBranch(workstreams, branch)
    {
      AnyBranch(workstreams, branch)
    }

    /** `add_workstream`: append an entry for `branch` unless one exists. */
    method AddWorkstream(branch: string, prNumber: Option<nat>, now: int)
      modifies this
      ensures workstreams == Added(old(workstreams), branch, prNumber, now)
      ensures name == old(name) && path == old(path) && defaultBranch == old(defaultBranch)
      ensures HasWorkstream(branch)
      ensures old(UniqueBranches(workstreams)) ==> UniqueBranches(workstreams)
    {
      AddedSpec(workstreams, branch, prNumber, now);
      if !HasWorkstream(branch) {
        workstreams := workstreams + [WorkstreamEntry(branch, now, prNumber)];
      }
    }

    /** `remove_workstream`: keep, in order, the entries for every other branch. */
    method RemoveWorkstream(branch: string)
      modifies this
      ensures workstreams == Without(old(workstreams), branch)
      ensures name == old(name) && path == old(path) && defaultBranch == old(defaultBranch)
      ensures !HasWorkstream(branch)
      ensures old(UniqueBranches(workstreams)) ==> UniqueBranches(workstreams)
    {
      WithoutSpec(workstreams, branch);
      workstreams := Without(workstreams, branch);
    }
  }

  // ------------------------------------------------------ worktree paths

  datatype ResolveError = ConfigError(message: string) | NotAGitRepo | NoHomeDir

  /**
   * `dir` is `base`, then `k` slashes, then `name`, then either nothing or a
   * `/` and whatever follows.
   */
  predicate Locates(dir: string, base: string, k: nat, name: string) {
    var start := |base| + k;
    var end := start + |name|;
    end <= |dir| && dir[..|base|] == base
    && (forall i :: |base| <= i < start ==> dir[i] == '/')
    && dir[start..end] == name
    && (end == |dir| || dir[end] == '/')
  }

  /**
   * `resolve_repo_from_worktree_path`: the name of the repository whose
   * worktree the current directory is in, which `load` is then asked for.
   * `cwd` is the current directory or the reason it could not be read;
   * `base` is what `worktrees_dir()` gives: its error, or the directory if
   * that is valid UTF-8.
   */
  function WorktreeRepoName(cwd: Result<string, string>, base: Result<Option<string>, ResolveError>)
    : (r: Result<string, ResolveError>)
    ensures cwd.Failure? ==> r == Failure(ConfigError("cannot get cwd: " + cwd.error))
    ensures cwd.Success? && base.Failure? ==> r == Failure(base.error)
    ensures (cwd.Success? && base.Success?
             && (base.value.None? || !StartsWith(cwd.value, base.value.value)))
            ==> r == Failure(NotAGitRepo)
    ensures r.Success? ==>
              cwd.Success? && base.Success? && base.value.Some? && r.value != "" && '/' !in r.value
              && exists k: nat :: Locates(cwd.value, base.value.value, k, r.value)
  {
    match cwd
    case Failure(e) => Failure(ConfigError("cannot get cwd: " + e))
    case Success(dir) =>
      match base
      case Failure(e) => Failure(e)
      case Success(utf8) =>
        if utf8.None? then Failure(NotAGitRepo)
        else
          match StripPrefix(dir, utf8.value)
          case None => Failure(NotAGitRepo)
          case Some(suffix) =>
            var relative := TrimStartChar(suffix, '/');
            var repoName := FirstSegment(relative);
            if repoName != "" then
              LocatesSegment(dir, utf8.value, suffix, relative, repoName);
              Success(repoName)
            else Failure(NotAGitRepo)
  }

  lemma LocatesSegment(dir: string, base: string, suffix: string, relative: string, repoName: string)
    requires dir == base + suffix
    requires relative == TrimStartChar(suffix, '/') && repoName == FirstSegment(relative)
    ensures Locates(dir, base, |suffix| - |relative|, repoName)
  {
    var k := |suffix| - |relative|;
    assert suffix[k..][..|repoName|] == repoName;
    assert k + |repoName| < |suffix| ==> suffix[k + |repoName|] == relative[|repoName|];
    LocatesFromParts(dir, base, suffix, k, repoName);
  }

  lemma LocatesFromParts(dir: string, base: string, suffix: string, k: nat, name: string)
    requires dir == base + suffix && k + |name| <= |suffix|
    requires forall i :: 0 <= i < k ==> suffix[i] == '/'
    requires suffix[k..][..|name|] == name
    requires k + |name| == |suffix| || suffix[k + |name|] == '/'
    ensures Locates(dir, base, k, name)
  {
    var start := |base| + k;
    var end := start + |name|;
    assert dir[..|base|] == base;
    forall i | |base| <= i < start
      ensures dir[i] == '/'
    {
      assert dir[i] == suffix[i - |base|];
    }
    assert dir[start..end] == name by {
      forall i | 0 <= i < |name|
        ensures dir[start + i] == name[i]
      {
        assert dir[start + i] == suffix[k + i] == suffix[k..][..|name|][i];
      }
    }
    if end < |dir| {
      assert dir[end] == suffix[k + |name|];
    }
  }

  /**
   * Conversely, a directory `base`, slashes, a non-empty name without `/`,
   * then nothing or a `/`-led rest resolves to that name.
   */
  lemma WorktreeRepoNameOf(dir: string, base: string, k: nat, repo: string)
    requires repo != "" && '/' !in repo && Locates(dir, base, k, repo)
    ensures WorktreeRepoName(Success(dir), Success(Some(base))) == Success(repo)
  {
    var suffix := SegmentAfterBase(dir, base, k, repo);
    assert StripPrefix(dir, base) == Some(suffix);
  }

  /** The suffix after `base` in a directory that `Locates` the name, and its first segment. */
  lemma SegmentAfterBase(dir: string, base: string, k: nat, repo: string) returns (suffix: string)
    requires repo != "" && '/' !in repo && Locates(dir, base, k, repo)
    ensures StartsWith(dir, base) && dir == base + suffix
    ensures FirstSegment(TrimStartChar(suffix, '/')) == repo
  {
    assert StartsWith(dir, base);
    suffix := dir[|base|..];
    assert dir == base + suffix;
    assert forall i :: 0 <= i < |suffix| ==> suffix[i] == dir[|base| + i];
    assert repo[0] in repo && suffix[k] == repo[0];
    TrimLeadingSlashes(suffix, k);
    var relative := suffix[k..];
    assert relative[..|repo|] == dir[|base| + k..|base| + k + |repo|];
    assert |repo| < |relative| ==> relative[|repo|] == dir[|base| + k + |repo|];
    FirstSegmentOf(relative, repo);
  }

  lemma TrimLeadingSlashes(s: string, k: nat)
    requires k < |s| && s[k] != '/' && forall i :: 0 <= i < k ==> s[i] == '/'
    ensures TrimStartChar(s, '/') == s[k..]
  {
    var r := TrimStartChar(s, '/');
    var m := |s| - |r|;
    assert m == k;
  }

  lemma FirstSegmentOf(s: string, name: string)
    requires |name| <= |s| && s[..|name|] == name && '/' !in name
    requires |name| == |s| || s[|name|] == '/'
    ensures FirstSegment(s) == name
  {
    var seg := FirstSegment(s);
    assert s[..|seg|] == seg;
    assert |seg| == |name|;
  }

  /**
   * The prefix test is on text, not on path components: a sibling directory
   * whose name merely starts with the worktrees directory's name resolves to
   * a repository named after the rest of that name.
   */
  lemma SiblingDirectoryResolves()
    ensures WorktreeRepoName(Success("/h/.vex/worktrees-old/x"), Success(Some("/h/.vex/worktrees"))) == Success("-old")
  {
    var dir := "/h/.vex/worktrees-old/x";
    assert dir[..17] == "/h/.vex/worktrees" && dir[17..21] == "-old" && dir[21] == '/';
    WorktreeRepoNameOf(dir, "/h/.vex/worktrees", 0, "-old");
  }

  /**
   * The lookup as the comment above it describes it: the worktrees directory
   * must be a whole leading path component of the current directory.
   */
  function WorktreeRepoNameByComponent(cwd: Result<string, string>,
                                       base: Result<Option<string>, ResolveError>)
    : (r: Result<string, ResolveError>)
    ensures r.Success? ==>
              cwd.Success? && base.Success? && base.value.Some? && r.value != "" && '/' !in r.value
              && exists k: nat :: k > 0 && Locates(cwd.value, base.value.value, k, r.value)
    ensures r.Success? ==> r == WorktreeRepoName(cwd, base)
  {
    match WorktreeRepoName(cwd, base)
    case Failure(e) => Failure(e)
    case Success(n) =>
      var dir := base.value.value;
      if |cwd.value| > |dir| && cwd.value[|dir|] == '/' then
        LocatesAfterBoundary(cwd.value, dir, n);
        Success(n)
      else Failure(NotAGitRepo)
  }

  lemma LocatesAfterBoundary(dir: string, base: string, repoName: string)
    requires |dir| > |base| && dir[|base|] == '/'
    requires repoName != "" && '/' !in repoName
    requires exists k: nat :: Locates(dir, base, k, repoName)
    ensures exists k: nat :: k > 0 && Locates(dir, base, k, repoName)
  {
    var k: nat :| Locates(dir, base, k, repoName);
  }

  /** A directory `<base>/<name>…` still resolves; the sibling directory no longer does. */
  lemma ByComponentSpec(dir: string, base: string, k: nat, repo: string)
    requires repo != "" && '/' !in repo && k > 0 && Locates(dir, base, k, repo)
    ensures WorktreeRepoNameByComponent(Success(dir), Success(Some(base))) == Success(repo)
    ensures WorktreeRepoNameByComponent(Success("/h/.vex/worktrees-old/x"), Success(Some("/h/.vex/worktrees"))).Failure?
  {
    WorktreeRepoNameOf(dir, base, k, repo);
    SiblingDirectoryResolves();
    assert "/h/.vex/worktrees-old/x"[17] == '-';
  }
}
