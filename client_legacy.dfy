/**
 * The older client (`crates/vex`): a default connection that commands use
 * when no name is given, `vex use`, and `--all` visiting every saved
 * connection in turn, updating each entry in place. It shares the
 * connection logic and the output formatting of the current client.
 */
module LegacyClient {
  import opened Wrappers
  import opened Strings
  import opened Hex
  import opened ClientConfig
  import opened Connect
  import opened Client

  /**
   * `cmd_use`: an unknown name is an error; a saved one becomes the default
   * and nothing else changes.
   */
  method CmdUse(cfg: Config, name: string, saveOk: bool) returns (r: Result<(), CliError>)
    modifies cfg
    ensures name !in old(cfg.connections) ==>
              r == Failure(Usage("Unknown connection '" + name
                                 + "'. Run 'vex list' to see available connections."))
              && cfg.defaultConnection == old(cfg.defaultConnection)
    ensures name in old(cfg.connections) ==>
              cfg.defaultConnection == Some(name) && (r.Success? <==> saveOk)
    ensures cfg.connections == old(cfg.connections)
    ensures cfg.Valid() || old(!cfg.Valid())
  {
    if name !in cfg.connections {
      return Failure(Usage("Unknown connection '" + name + "'. Run 'vex list' to see available connections."));
    }
    cfg.defaultConnection := Some(name);
    r := if saveOk then Success(()) else Failure(SaveFailed);
  }

  const NoTarget: string := "No connection specified and no default is set."

  /**
   * `cmd_disconnect`: `--all` clears everything; otherwise the named
   * connection or else the default is removed. Having neither is an error,
   * and an unknown name is only reported.
   */
  method CmdDisconnect(cfg: Config, all: bool, connection: Option<string>, saveOk: bool)
    returns (r: Result<string, CliError>)
    modifies cfg
    ensures all ==> cfg.connections == map[] && cfg.defaultConnection.None? && (r.Success? <==> saveOk)
    ensures !all && connection.None? && old(cfg.defaultConnection).None? ==>
              r == Failure(Usage(NoTarget)) && cfg.connections == old(cfg.connections)
    ensures !all && (connection.Some? || old(cfg.defaultConnection).Some?) ==>
              var name := connection.GetOr(old(cfg.defaultConnection).GetOr(""));
              cfg.connections == old(cfg.connections) - {name}
              && (name !in old(cfg.connections) ==>
                    r == Success("Connection '" + name + "' not found."))
              && (name in old(cfg.connections) ==> (r.Success? <==> saveOk))
    ensures old(cfg.Valid()) ==> cfg.Valid()
  {
    if all {
      cfg.ClearAll();
      return if saveOk then Success("All connections removed.") else Failure(SaveFailed);
    }
    var target := if connection.Some? then connection else cfg.defaultConnection;
    if target.None? {
      return Failure(Usage(NoTarget));
    }
    var name := target.value;
    var removed := cfg.Remove(name);
    if !removed {
      return Success("Connection '" + name + "' not found.");
    }
    r := if saveOk then Success("Removed connection '" + name + "'.") else Failure(SaveFailed);
  }

  /** The saved names in the map's own (unspecified) order. */
  method SavedNames(keys: set<string>) returns (names: seq<string>)
    ensures NoRepeats(names) && forall n :: n in names <==> n in keys
  {
    names := [];
    var rest := keys;
    while rest != {}
      invariant rest <= keys
      invariant NoRepeats(names)
      invariant forall n :: n in names <==> n in keys && n !in rest
      decreases |rest|
    {
      var k :| k in rest;
      names := names + [k];
      rest := rest - {k};
    }
  }

  /**
   * One step of the `--all` loop: connect with the entry saved under `name`,
   * put the updated entry back in its place, and run the command if the
   * connection succeeded. The step's report is the current client's task
   * report for the same connection.
   */
  method Visit(cfg: Config, hash: seq<byte> -> Digest, name: string, cmd: DaemonCmd, peer: Peer)
    returns (report: TaskResult)
    requires name in cfg.connections
    modifies cfg
    ensures cfg.defaultConnection == old(cfg.defaultConnection)
    ensures cfg.connections
         == old(cfg.connections)[name := FromEntrySpec(hash, old(cfg.connections)[name], peer).1]
    ensures report == RunTask(hash, name, old(cfg.connections)[name], peer, cmd)
  {
    var entry := cfg.connections[name];
    FromEntryOnlyPins(hash, entry, peer);
    var res, updated, _ := FromEntry(hash, entry, peer);
    cfg.connections := cfg.connections[name := updated];
    if res.Success? {
      var newFp := if updated.tlsFingerprint != entry.tlsFingerprint then updated.tlsFingerprint else None;
      var output := RunCmd(cmd, peer.cmdReply);
      report := TaskResult(name, newFp, output);
    } else {
      report := TaskResult(name, None, Failure(res.error));
    }
  }

  /** `pin` and `report` are what visiting `name`, saved as `entry`, leaves and reports. */
  predicate Planned(hash: seq<byte> -> Digest, name: string, entry: ConnectionEntry, peer: Peer, cmd: DaemonCmd,
                    pin: ConnectionEntry, report: TaskResult) {
    pin == FromEntrySpec(hash, entry, peer).1 && report == RunTask(hash, name, entry, peer, cmd)
  }

  /** `Visit` for a step whose outcome is already named. */
  method VisitStep(cfg: Config, hash: seq<byte> -> Digest, name: string, cmd: DaemonCmd, peer: Peer,
                   ghost entry: ConnectionEntry, ghost pin: ConnectionEntry, ghost expected: TaskResult)
    returns (report: TaskResult)
    requires name in cfg.connections && cfg.connections[name] == entry
    requires Planned(hash, name, entry, peer, cmd, pin, expected)
    modifies cfg
    ensures cfg.defaultConnection == old(cfg.defaultConnection)
    ensures cfg.connections == old(cfg.connections)[name := pin]
    ensures report == expected
  {
    report := Visit(cfg, hash, name, cmd, peer);
  }

  /** Pinning `names[i]` in place keeps the loop's picture of the saved connections. */
  lemma PinStep(before: map<string, ConnectionEntry>, mid: map<string, ConnectionEntry>,
                names: seq<string>, pins: seq<ConnectionEntry>, i: nat)
    requires i < |names| == |pins| && NoRepeats(names) && forall n :: n in names ==> n in before
    requires forall j :: 0 <= j < i ==> names[j] in mid && mid[names[j]] == pins[j]
    requires forall j :: i <= j < |names| ==> names[j] in mid && mid[names[j]] == before[names[j]]
    ensures forall j :: 0 <= j < i + 1 ==> mid[names[i] := pins[i]][names[j]] == pins[j]
    ensures forall j :: i + 1 <= j < |names| ==> mid[names[i] := pins[i]][names[j]] == before[names[j]]
  {
    forall j | 0 <= j < |names| && j != i
      ensures mid[names[i] := pins[i]][names[j]] == mid[names[j]]
    {
      assert names[j] != names[i];
    }
  }

  /** Some report learned a fingerprint. */
  predicate Learned(reports: seq<TaskResult>) {
    exists j :: 0 <= j < |reports| && reports[j].newFp.Some?
  }

  /** Some report failed. */
  predicate Failed(reports: seq<TaskResult>) {
    exists j :: 0 <= j < |reports| && reports[j].output.Failure?
  }

  /** One more report extends both flags by its own. */
  lemma FlagsPrefix(reports: seq<TaskResult>, i: nat)
    requires i < |reports|
    ensures Learned(reports[..i + 1]) <==> Learned(reports[..i]) || reports[i].newFp.Some?
    ensures Failed(reports[..i + 1]) <==> Failed(reports[..i]) || reports[i].output.Failure?
  {
    assert reports[..i + 1][i] == reports[i];
    assert forall j :: 0 <= j < i ==> reports[..i + 1][j] == reports[..i][j];
  }

  /**
   * The `--all` loop over `names`, which are the saved names, each once;
   * `ps[j]` is the daemon reached through `names[j]`. The flags are whether
   * some report learned a fingerprint and whether some report failed.
   */
  method VisitAll(cfg: Config, hash: seq<byte> -> Digest, names: seq<string>, cmd: DaemonCmd,
                  ps: seq<Peer>, ghost before: map<string, ConnectionEntry>,
                  ghost pins: seq<ConnectionEntry>, ghost expected: seq<TaskResult>)
    returns (cfgChanged: bool, anyError: bool, ghost reports: seq<TaskResult>)
    requires |ps| == |names| == |pins| == |expected|
    requires before == cfg.connections
    requires NoRepeats(names) && forall n :: n in names <==> n in before
    requires forall j :: 0 <= j < |names| ==>
               Planned(hash, names[j], before[names[j]], ps[j], cmd, pins[j], expected[j])
    modifies cfg
    ensures cfg.defaultConnection == old(cfg.defaultConnection)
    ensures cfg.connections.Keys == old(cfg.connections).Keys
    ensures forall j :: 0 <= j < |names| ==> cfg.connections[names[j]] == pins[j]
    ensures reports == expected
    ensures cfgChanged <==> Learned(reports)
    ensures anyError <==> Failed(reports)
  {
    cfgChanged, anyError := false, false;
    var i := 0;
    while i < |names|
      invariant 0 <= i <= |names|
      invariant cfg.defaultConnection == old(cfg.defaultConnection)
      invariant cfg.connections.Keys == before.Keys
      invariant forall j :: 0 <= j < i ==> cfg.connections[names[j]] == pins[j]
      invariant forall j :: i <= j < |names| ==> cfg.connections[names[j]] == before[names[j]]
      invariant cfgChanged <==> Learned(expected[..i])
      invariant anyError <==> Failed(expected[..i])
    {
      ghost var mid := cfg.connections;
      var report := VisitStep(cfg, hash, names[i], cmd, ps[i], before[names[i]], pins[i], expected[i]);
      PinStep(before, mid, names, pins, i);
      assert cfg.connections == mid[names[i] := pins[i]];
      FlagsPrefix(expected, i);
      cfgChanged := cfgChanged || report.newFp.Some?;
      anyError := anyError || report.output.Failure?;
      i := i + 1;
    }
    assert expected[..i] == expected;
    reports := expected;
  }

  /**
   * `cmd_with_connections --all`: connect to each saved connection in turn,
   * update its entry in place, run the command, and carry on after any
   * failure. The config is saved iff some fingerprint was learned (and the
   * write succeeds); the command fails iff some connection failed or that
   * write did.
   */
  method CmdWithAll(cfg: Config, hash: seq<byte> -> Digest, cmd: DaemonCmd, peers: string -> Peer,
                    saveOk: bool)
    returns (r: Result<(), CliError>, saved: bool)
    modifies cfg
    ensures cfg.defaultConnection == old(cfg.defaultConnection)
    ensures cfg.connections.Keys == old(cfg.connections).Keys
    ensures forall k :: k in old(cfg.connections) ==>
              cfg.connections[k] == FromEntrySpec(hash, old(cfg.connections)[k], peers(k)).1
    ensures var learned := exists k :: k in old(cfg.connections)
                             && RunTask(hash, k, old(cfg.connections)[k], peers(k), cmd).newFp.Some?;
            (saved <==> learned && saveOk)
            && (r.Success? <==>
                  (forall k :: k in old(cfg.connections) ==>
                     RunTask(hash, k, old(cfg.connections)[k], peers(k), cmd).output.Success?)
                  && (saveOk || !learned))
            && (learned && !saveOk ==> r == Failure(SaveFailed))
  {
    var names := SavedNames(cfg.connections.Keys);
    ghost var before := cfg.connections;
    var ps := seq(|names|, j requires 0 <= j < |names| => peers(names[j]));
    ghost var pins := seq(|names|, j requires 0 <= j < |names| => FromEntrySpec(hash, before[names[j]], ps[j]).1);
    ghost var expected := seq(|names|, j requires 0 <= j < |names| => RunTask(hash, names[j], before[names[j]], ps[j], cmd));
    var cfgChanged, anyError, reports := VisitAll(cfg, hash, names, cmd, ps, before, pins, expected);
    forall k | k in before
      ensures exists j :: 0 <= j < |names| && names[j] == k
    {
      assert k in names;
    }
    saved := false;
    if cfgChanged {
      if !saveOk {
        return Failure(SaveFailed), false;
      }
      saved := true;
    }
    if anyError {
      return Failure(Usage(OneOrMoreFailed)), saved;
    }
    r := Success(());
  }

  /**
   * `cmd_with_connections` for one connection: the explicit name or the
   * default, resolved first; a connect failure aborts with the entry
   * unchanged; a learned fingerprint is saved before the command runs.
   */
  method CmdWithOne(cfg: Config, hash: seq<byte> -> Digest, connection: Option<string>,
                    cmd: DaemonCmd, peers: string -> Peer, saveOk: bool)
    returns (r: Result<Output, CliError>, saved: bool)
    modifies cfg
    ensures cfg.defaultConnection == old(cfg.defaultConnection)
    ensures old(cfg.Resolve(connection)).Failure? ==>
              r == Failure(Usage(old(cfg.Resolve(connection)).error))
              && cfg.connections == old(cfg.connections) && !saved
    ensures old(cfg.Resolve(connection)).Success? ==>
              var (name, entry) := old(cfg.Resolve(connection)).value;
              var (c, updated, _) := FromEntrySpec(hash, entry, peers(name));
              cfg.connections == old(cfg.connections)[name := updated]
              && (saved <==> updated != entry && saveOk)
              && (c.Failure? ==> r == Failure(ConnectFailed(c.error)) && updated == entry)
              && (c.Success? && updated != entry && !saveOk ==> r == Failure(SaveFailed))
              && (c.Success? && (updated == entry || saveOk) ==>
                    r == (match RunCmd(cmd, peers(name).cmdReply)
                          case Success(out) => Success(out)
                          case Failure(e) => Failure(ConnectFailed(e))))
  {
    saved := false;
    var resolved := cfg.Resolve(connection);
    if resolved.Failure? {
      return Failure(Usage(resolved.error)), false;
    }
    var (name, entry) := resolved.value;
    FromEntryOnlyPins(hash, entry, peers(name));
    var c, updated, _ := FromEntry(hash, entry, peers(name));
    cfg.connections := cfg.connections[name := updated];
    if c.Failure? {
      return Failure(ConnectFailed(c.error)), false;
    }
    if updated.tlsFingerprint != entry.tlsFingerprint {
      if !saveOk {
        return Failure(SaveFailed), false;
      }
      saved := true;
    }
    var output := RunCmd(cmd, peers(name).cmdReply);
    r := match output
         case Success(out) => Success(out)
         case Failure(e) => Failure(ConnectFailed(e));
  }
}
