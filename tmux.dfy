/**
 * The tmux helpers of the standalone `vex` tool (`src/tmux.rs`): session
 * names, the commands a new session's windows are started with, the calls
 * `create_session` makes, and the filter `list_sessions` applies. tmux itself
 * is a parameter: `run` maps an argument vector to tmux's stdout on success
 * or its stderr on failure.
 */
module Tmux {
  import opened Wrappers
  import opened Strings

  datatype TmuxError = TmuxError(message: string) | ConfigError(message: string)

  /** The characters a session name may not contain. */
  const Forbidden: set<char> := {'.', '/', ':'}

  const SessionPrefix := "vex_"

  /** `ReplaceChars` with a one-character replacement acts character by character. */
  lemma ReplaceCharsPointwise(s: string, targets: set<char>, c: char)
    ensures var r := ReplaceChars(s, targets, [c]);
      |r| == |s| && forall i :: 0 <= i < |s| ==> r[i] == if s[i] in targets then c else s[i]
  {
    if |s| > 0 {
      ReplaceCharsPointwise(s[1..], targets, c);
      var r := ReplaceChars(s, targets, [c]);
      var tail := ReplaceChars(s[1..], targets, [c]);
      assert r == (if s[0] in targets then [c] else [s[0]]) + tail;
      forall i | 0 <= i < |s|
        ensures r[i] == if s[i] in targets then c else s[i]
      {
        if i > 0 {
          assert r[i] == tail[i - 1] && s[i] == s[1..][i - 1];
        }
      }
    }
  }

  /** `session_name`: `vex_<repo>_<branch>` with each `.`, `/` and `:` turned into `-`. */
  function SessionName(repo: string, branch: string): (n: string)
    ensures |n| == 5 + |repo| + |branch|
    ensures forall c :: c in n ==> c !in Forbidden
  {
    ReplaceChars(SessionPrefix + repo + "_" + branch, Forbidden, "-")
  }

  /**
   * The name keeps the raw name's length and every other character, puts `-`
   * where a forbidden character was, and so contains none of them and starts
   * with `vex_`.
   */
  lemma SessionNameSpec(repo: string, branch: string)
    ensures var raw := SessionPrefix + repo + "_" + branch;
      var n := SessionName(repo, branch);
      |n| == 5 + |repo| + |branch|
      && (forall i :: 0 <= i < |n| ==> n[i] == if raw[i] in Forbidden then '-' else raw[i])
      && (forall c :: c in n ==> c !in Forbidden)
      && StartsWith(n, SessionPrefix)
  {
    var raw := SessionPrefix + repo + "_" + branch;
    ReplaceCharsPointwise(raw, Forbidden, '-');
    var n := SessionName(repo, branch);
    assert n[..4] == SessionPrefix by {
      forall i | 0 <= i < 4
        ensures n[i] == SessionPrefix[i]
      {
        assert raw[i] == SessionPrefix[i];
      }
    }
  }

  /** Names already free of `.`, `/` and `:` are used unchanged. */
  lemma SessionNamePlain(repo: string, branch: string)
    requires forall c :: c in repo ==> c !in Forbidden
    requires forall c :: c in branch ==> c !in Forbidden
    ensures SessionName(repo, branch) == SessionPrefix + repo + "_" + branch
  {
    var raw := SessionPrefix + repo + "_" + branch;
    SessionNameSpec(repo, branch);
    forall i | 0 <= i < |raw|
      ensures raw[i] !in Forbidden
    {
      if i >= 5 + |repo| {
        assert raw[i] == branch[i - 5 - |repo|];
      } else if 4 <= i < 4 + |repo| {
        assert raw[i] == repo[i - 4];
      }
    }
  }

  // ------------------------------------------------------------ windows

  /** One configured window: its name and the command typed into it. */
  datatype Window = Window(name: string, command: string)

  /** The `on_enter` hooks as a prefix: none gives "", else each hook followed by ` && `. */
  function HookPrefix(hooks: seq<string>): (p: string)
    ensures |hooks| == 0 <==> p == ""
    ensures |hooks| > 0 ==> |p| >= 4 && p[|p| - 4..] == " && "
  {
    if |hooks| == 0 then "" else Join(hooks, " && ") + " && "
  }

  /** Each hook is followed by ` && `, in order: the prefix is built hook by hook. */
  lemma HookPrefixCons(h: string, rest: seq<string>)
    ensures HookPrefix([h] + rest) == h + " && " + HookPrefix(rest)
  {
    if |rest| > 0 {
      JoinCons(h, rest, " && ");
    }
  }

  /** A window's start-up command: the hook prefix, then its own command. */
  function WindowCommand(prefix: string, command: string): (c: string)
    ensures c == prefix + command
    ensures c == "" <==> prefix == "" && command == ""
  {
    if command == "" then prefix else prefix + command
  }

  function NewSession(name: string, dir: string, w: Window): seq<string> {
    ["new-session", "-d", "-s", name, "-c", dir, "-n", w.name]
  }

  function NewWindow(name: string, dir: string, w: Window): seq<string> {
    ["new-window", "-t", name, "-n", w.name, "-c", dir]
  }

  function SendKeys(name: string, w: Window, cmd: string): seq<string> {
    ["send-keys", "-t", name + ":" + w.name, cmd, "Enter"]
  }

  function SelectWindow(name: string, w: Window): seq<string> {
    ["select-window", "-t", name + ":" + w.name]
  }

  /** The keys typed into a window: its command, or nothing when that is empty. */
  function Keys(name: string, prefix: string, w: Window): (k: seq<seq<string>>)
    ensures |k| == 0 <==> prefix == "" && w.command == ""
    ensures |k| > 0 ==> k == [SendKeys(name, w, prefix + w.command)]
  {
    var cmd := WindowCommand(prefix, w.command);
    if cmd == "" then [] else [SendKeys(name, w, cmd)]
  }

  /** The calls for the windows after the first, in order. */
  function LaterWindows(name: string, dir: string, prefix: string, ws: seq<Window>): seq<seq<string>>
  {
    if |ws| == 0 then []
    else LaterWindows(name, dir, prefix, ws[..|ws| - 1])
         + [NewWindow(name, dir, ws[|ws| - 1])] + Keys(name, prefix, ws[|ws| - 1])
  }

  lemma LaterWindowsSnoc(name: string, dir: string, prefix: string, ws: seq<Window>, i: nat)
    requires 1 <= i < |ws|
    ensures LaterWindows(name, dir, prefix, ws[1..i + 1])
         == LaterWindows(name, dir, prefix, ws[1..i]) + [NewWindow(name, dir, ws[i])] + Keys(name, prefix, ws[i])
  {
    assert ws[1..i + 1][..i - 1] == ws[1..i];
  }

  /** Every call `create_session` makes before selecting the first window. */
  function Plan(name: string, dir: string, hooks: seq<string>, windows: seq<Window>): seq<seq<string>>
    requires |windows| > 0
  {
    var prefix := HookPrefix(hooks);
    [NewSession(name, dir, windows[0])] + Keys(name, prefix, windows[0])
    + LaterWindows(name, dir, prefix, windows[1..])
  }

  /** `run_tmux`: tmux's output with surrounding whitespace trimmed, or its trimmed stderr. */
  function RunTmux(run: seq<string> -> Result<string, string>, args: seq<string>): (r: Result<string, TmuxError>)
    ensures r.Success? <==> run(args).Success?
    ensures r.Success? ==> r.value == Trim(run(args).value)
    ensures r.Failure? ==> r.error == TmuxError(Trim(run(args).error))
  {
    match run(args)
    case Success(out) => Success(Trim(out))
    case Failure(err) => Failure(TmuxError(Trim(err)))
  }

  /** Every one of `calls` succeeds. */
  predicate AllSucceed(run: seq<string> -> Result<string, string>, calls: seq<seq<string>>) {
    forall i :: 0 <= i < |calls| ==> run(calls[i]).Success?
  }

  /**
   * `issued` is the part of `calls` up to and including the first that
   * failed, and `err` is that call's trimmed stderr.
   */
  predicate StoppedAt(run: seq<string> -> Result<string, string>, calls: seq<seq<string>>,
                      issued: seq<seq<string>>, err: TmuxError) {
    0 < |issued| <= |calls| && issued == calls[..|issued|]
    && AllSucceed(run, issued[..|issued| - 1])
    && run(issued[|issued| - 1]).Failure?
    && err == TmuxError(Trim(run(issued[|issued| - 1]).error))
  }

  /** Run `calls` in order, stopping after the first that fails. */
  method RunEach(run: seq<string> -> Result<string, string>, calls: seq<seq<string>>)
    returns (issued: seq<seq<string>>, r: Result<(), TmuxError>)
    ensures r.Success? ==> issued == calls && AllSucceed(run, calls)
    ensures r.Failure? ==> StoppedAt(run, calls, issued, r.error)
  {
    var i := 0;
    while i < |calls|
      invariant 0 <= i <= |calls|
      invariant forall j :: 0 <= j < i ==> run(calls[j]).Success?
    {
      var res := RunTmux(run, calls[i]);
      if res.Failure? {
        issued := calls[..i + 1];
        assert issued[..i] == calls[..i];
        return issued, Failure(res.error);
      }
      i := i + 1;
    }
    issued, r := calls, Success(());
  }

  /**
   * `create_session`: no windows is a configuration error; otherwise the
   * planned calls run in order until one fails, and on success the first
   * window is selected, whatever that last call returns.
   */
  method CreateSession(run: seq<string> -> Result<string, string>, name: string, dir: string,
                       hooks: seq<string>, windows: seq<Window>)
    returns (issued: seq<seq<string>>, r: Result<(), TmuxError>)
    ensures |windows| == 0 ==> issued == [] && r == Failure(ConfigError("No windows configured"))
    ensures |windows| > 0 && r.Success? ==>
              issued == Plan(name, dir, hooks, windows) + [SelectWindow(name, windows[0])]
              && AllSucceed(run, Plan(name, dir, hooks, windows))
    ensures |windows| > 0 && r.Failure? ==> StoppedAt(run, Plan(name, dir, hooks, windows), issued, r.error)
  {
    if |windows| == 0 {
      return [], Failure(ConfigError("No windows configured"));
    }
    var prefix := HookPrefix(hooks);
    var first := windows[0];
    var head := [NewSession(name, dir, first)] + Keys(name, prefix, first);
    var later := [];
    var i := 1;
    while i < |windows|
      invariant 1 <= i <= |windows|
      invariant later == LaterWindows(name, dir, prefix, windows[1..i])
    {
      LaterWindowsSnoc(name, dir, prefix, windows, i);
      later := later + [NewWindow(name, dir, windows[i])] + Keys(name, prefix, windows[i]);
      i := i + 1;
    }
    assert windows[1..i] == windows[1..];
    var calls := head + later;
    assert calls == Plan(name, dir, hooks, windows);
    issued, r := RunEach(run, calls);
    if r.Success? {
      issued := issued + [SelectWindow(name, first)];
    }
  }

  // ----------------------------------------------------------- sessions

  /** The lines naming vex sessions, in order. */
  function VexSessions(lines: seq<string>): (r: seq<string>)
    ensures forall l :: l in r <==> l in lines && StartsWith(l, SessionPrefix)
  {
    if |lines| == 0 then []
    else (if StartsWith(lines[0], SessionPrefix) then [lines[0]] else []) + VexSessions(lines[1..])
  }

  /** The filter keeps order: it distributes over concatenation. */
  lemma {:induction false} VexSessionsAppend(a: seq<string>, b: seq<string>)
    ensures VexSessions(a + b) == VexSessions(a) + VexSessions(b)
  {
    if |a| == 0 {
      assert a + b == b;
    } else {
      var ab := a + b;
      var head := if StartsWith(a[0], SessionPrefix) then [a[0]] else [];
      assert ab[0] == a[0] && ab[1..] == a[1..] + b;
      calc {
        VexSessions(ab);
        head + VexSessions(a[1..] + b);
        { VexSessionsAppend(a[1..], b); }
        head + (VexSessions(a[1..]) + VexSessions(b));
        (head + VexSessions(a[1..])) + VexSessions(b);
        VexSessions(a) + VexSessions(b);
      }
    }
  }

  /** `list_sessions`: the vex sessions tmux lists, or none when tmux fails. */
  function ListSessions(run: seq<string> -> Result<string, string>): (r: seq<string>)
    ensures run(["list-sessions", "-F", "#{session_name}"]).Failure? ==> r == []
    ensures run(["list-sessions", "-F", "#{session_name}"]).Success? ==>
              r == VexSessions(Lines(Trim(run(["list-sessions", "-F", "#{session_name}"]).value)))
    ensures forall s :: s in r ==> StartsWith(s, SessionPrefix)
  {
    match RunTmux(run, ["list-sessions", "-F", "#{session_name}"])
    case Failure(_) => []
    case Success(out) => VexSessions(Lines(out))
  }

  /** Every name `session_name` makes passes the `list_sessions` filter. */
  lemma SessionNameListed(repo: string, branch: string, lines: seq<string>)
    requires SessionName(repo, branch) in lines
    ensures SessionName(repo, branch) in VexSessions(lines)
  {
    SessionNameSpec(repo, branch);
  }
}
