/**
 * The current client's commands that touch saved connections and daemons
 * (`vex connect`, `vex disconnect`, and `vex status` / `vex whoami` fanned
 * out over the saved connections). Each connection's peer is given by a
 * function from connection name to `Peer`; the tasks the client spawns are
 * independent, so they are modelled one after another.
 */
module Client {
  import opened Wrappers
  import opened Strings
  import opened Hex
  import opened Proto
  import opened ClientConfig
  import opened Connect
  import Server
  import Framing

  datatype DaemonCmd = StatusCmd | WhoamiCmd

  /** What a command prints for its reply: a formatted line, or the reply's `Debug` form. */
  datatype Output = Line(text: string) | DebugOf(response: Response)

  datatype CliError =
    | Usage(message: string)
    | ConnectFailed(error: ConnectError)
    | SaveFailed

  const OneOrMoreFailed: string := "One or more connections failed"

  // -------------------------------------------------------------- run_cmd

  /** `run_whoami`'s line for a `ClientInfo` reply. */
  function WhoamiLine(info: ClientInfo): (r: string)
    ensures r == "local (admin via Unix socket)" <==> info.isLocal
    ensures !info.isLocal && info.tokenId.Some? ==>
              |r| == 24 + |info.tokenId.value| && r[24..] == info.tokenId.value
  {
    if info.isLocal then "local (admin via Unix socket)"
    else if info.tokenId.Some? then
      var r := "authenticated as token: " + info.tokenId.value;
      assert r[0] != "local (admin via Unix socket)"[0];
      r
    else "unauthenticated TCP connection"
  }

  function StatusLine(s: DaemonStatus): (r: string)
    ensures |r| > 6 + |s.version| && r[..6] == "vexd v" && r[6..6 + |s.version|] == s.version
  {
    "vexd v" + s.version + " | uptime: " + NatToString(s.uptimeSecs) + "s | clients: "
    + NatToString(s.connectedClients)
  }

  /**
   * `run_status` / `run_whoami`: send the command and format the reply; the
   * reply is None when the frame exchange fails. Any unexpected reply is
   * printed, not treated as an error.
   */
  function RunCmd(cmd: DaemonCmd, reply: Option<Response>): (r: Result<Output, ConnectError>)
    ensures r.Failure? <==> reply.None?
    ensures r.Success? && r.value.DebugOf? ==> r.value.response == reply.value
  {
    match reply
    case None => Failure(FrameFailed)
    case Some(resp) =>
      match cmd
      case StatusCmd =>
        if resp.DaemonStatusReply? then Success(Line(StatusLine(resp.status))) else Success(DebugOf(resp))
      case WhoamiCmd =>
        if resp.ClientInfoReply? then Success(Line(WhoamiLine(resp.info))) else Success(DebugOf(resp))
  }

  /**
   * End to end: the line `vex whoami` prints for the daemon's answer says
   * "local" exactly for a Unix session, names the token of an authenticated
   * TCP session, and reports an unauthenticated one otherwise.
   */
  lemma WhoamiReportsDaemonSession(c: Server.Consts, clients: Framing.U32, s: Server.State,
                                   ses: Server.Session, env: Server.Env)
    ensures var resp := Server.DispatchSpec(c, clients, s, ses, Whoami, env).0;
      var r := RunCmd(WhoamiCmd, Some(resp));
      r.Success? && r.value.Line?
      && (ses.transport == Unix <==> r.value.text == "local (admin via Unix socket)")
      && (ses.transport == Tcp && ses.tokenId.Some? ==>
            r.value.text == "authenticated as token: " + ses.tokenId.value)
      && (ses.transport == Tcp && ses.tokenId.None? ==> r.value.text == "unauthenticated TCP connection")
  {
    Server.WhoamiReportsSession(c, clients, s, ses, env);
    var prefix := "authenticated as token: ";
    if ses.transport == Tcp && ses.tokenId.Some? {
      var line := prefix + ses.tokenId.value;
      assert line[0] != "local (admin via Unix socket)"[0];
    }
    if ses.transport == Tcp && ses.tokenId.None? {
      assert "unauthenticated TCP connection"[0] != "local (admin via Unix socket)"[0];
    }
  }

  /** Two authenticated sessions print the same line only for the same token. */
  lemma WhoamiDistinguishesTokens(a: string, b: string)
    requires WhoamiLine(ClientInfo(Some(a), false)) == WhoamiLine(ClientInfo(Some(b), false))
    ensures a == b
  {
    var prefix := "authenticated as token: ";
    assert (prefix + a)[|prefix|..] == a;
    assert (prefix + b)[|prefix|..] == b;
  }

  // ------------------------------------------------------ target selection

  datatype Selection = UnknownName(name: string) | NoConnections | Targets(names: seq<string>)

  /** `elems` lists exactly `keys`, ascending and without repeats. */
  ghost predicate ListsSorted(elems: seq<string>, keys: set<string>) {
    StrictlySorted(elems) && forall n :: n in elems <==> n in keys
  }

  lemma {:induction false} BelowAllOfSorted(x: string, s: seq<string>)
    requires StrictlySorted(s) && |s| > 0 && Below(x, s[0])
    ensures forall y :: y in s ==> Below(x, y)
  {
    forall y | y in s ensures Below(x, y) {
      var j :| 0 <= j < |s| && s[j] == y;
      if j > 0 {
        BelowTransitive(x, s[0], y);
      }
    }
  }

  lemma ConsSorted(x: string, t: seq<string>)
    requires StrictlySorted(t) && forall y :: y in t ==> Below(x, y)
    ensures StrictlySorted([x] + t)
  {
    var r := [x] + t;
    forall i, j | 0 <= i < j < |r| ensures Below(r[i], r[j]) {
      if i > 0 {
        assert r[i] == t[i - 1] && r[j] == t[j - 1];
      } else {
        assert r[j] == t[j - 1] && r[j] in t;
      }
    }
  }

  /** One step of `sort`: put `x` in its place in an ascending list. */
  function Insert(s: seq<string>, x: string): (r: seq<string>)
    requires StrictlySorted(s) && x !in s
    ensures StrictlySorted(r) && |r| == |s| + 1
    ensures forall y :: y in r <==> y in s || y == x
  {
    if |s| == 0 then [x]
    else if Below(x, s[0]) then
      BelowAllOfSorted(x, s);
      ConsSorted(x, s);
      [x] + s
    else
      BelowTotal(x, s[0]);
      var rest := Insert(s[1..], x);
      assert forall y :: y in s[1..] ==> Below(s[0], y) by {
        forall y | y in s[1..] ensures Below(s[0], y) {
          var j :| 0 <= j < |s[1..]| && s[1..][j] == y;
          assert s[j + 1] == y;
        }
      }
      ConsSorted(s[0], rest);
      assert s == [s[0]] + s[1..];
      [s[0]] + rest
  }

  /** `keys().cloned().collect()` followed by `sort()`. */
  method SortedNames(keys: set<string>) returns (names: seq<string>)
    ensures ListsSorted(names, keys)
  {
    names := [];
    var rest := keys;
    while rest != {}
      invariant rest <= keys
      invariant StrictlySorted(names)
      invariant forall n :: n in names <==> n in keys && n !in rest
      decreases |rest|
    {
      var k :| k in rest;
      names := Insert(names, k);
      rest := rest - {k};
    }
  }

  function UnknownTargetMessage(name: string): string {
    "Unknown connection '" + name + "'. Run 'vex list' to see available."
  }

  /**
   * The targets of `cmd_with_connections`: a named connection must be saved
   * and is the only target; without a name every saved connection is, in
   * ascending order, and an empty config has none.
   */
  method SelectTargets(connections: map<string, ConnectionEntry>, filter: Option<string>)
    returns (sel: Selection)
    ensures sel.UnknownName? <==> filter.Some? && filter.value !in connections
    ensures sel.UnknownName? ==> sel.name == filter.value
    ensures sel.NoConnections? <==> filter.None? && connections == map[]
    ensures filter.Some? && filter.value in connections ==> sel == Targets([filter.value])
    ensures filter.None? && sel.Targets? ==> ListsSorted(sel.names, connections.Keys)
  {
    match filter {
      case Some(name) =>
        sel := if name in connections then Targets([name]) else UnknownName(name);
      case None =>
        if connections == map[] {
          sel := NoConnections;
        } else {
          var names := SortedNames(connections.Keys);
          sel := Targets(names);
        }
    }
  }

  // ---------------------------------------------------- tasks and merging

  /** One spawned task's report: the name, the fingerprint it learned, and the command's outcome. */
  datatype TaskResult = TaskResult(name: string, newFp: Option<string>,
                                   output: Result<Output, ConnectError>)

  /**
   * A task connects with its own copy of the entry and reports a
   * fingerprint only when `from_entry` changed the copy's.
   */
  function RunTask(hash: seq<byte> -> Digest, name: string, entry: ConnectionEntry, peer: Peer,
                   cmd: DaemonCmd): (t: TaskResult)
    ensures t.name == name
    ensures t.newFp.Some? ==>
              entry.tlsFingerprint.None? && t.newFp == Some(Fingerprint(hash, peer.cert))
              && FromEntrySpec(hash, entry, peer).1 == entry.(tlsFingerprint := t.newFp)
    ensures t.newFp.None? ==> FromEntrySpec(hash, entry, peer).1 == entry
    ensures t.output.Failure? <==> FromEntrySpec(hash, entry, peer).0.Failure? || peer.cmdReply.None?
  {
    FromEntryOnlyPins(hash, entry, peer);
    var (r, updated, _) := FromEntrySpec(hash, entry, peer);
    match r
    case Failure(e) => TaskResult(name, None, Failure(e))
    case Success(_) =>
      var newFp := if updated.tlsFingerprint != entry.tlsFingerprint then updated.tlsFingerprint else None;
      TaskResult(name, newFp, RunCmd(cmd, peer.cmdReply))
  }

  /** The tasks for `names`, each on the entry saved under its name. */
  function Tasks(hash: seq<byte> -> Digest, connections: map<string, ConnectionEntry>,
                 names: seq<string>, peers: string -> Peer, cmd: DaemonCmd): (ts: seq<TaskResult>)
    requires forall n :: n in names ==> n in connections
    ensures |ts| == |names| && forall i :: 0 <= i < |names| ==> ts[i].name == names[i]
  {
    if |names| == 0 then []
    else [RunTask(hash, names[0], connections[names[0]], peers(names[0]), cmd)]
         + Tasks(hash, connections, names[1..], peers, cmd)
  }

  /** Writing one report's fingerprint back, into the same-named entry only. */
  function WriteBack(connections: map<string, ConnectionEntry>, t: TaskResult)
    : (m: map<string, ConnectionEntry>)
    ensures m.Keys == connections.Keys
    ensures forall k :: k in m && k != t.name ==> m[k] == connections[k]
  {
    if t.newFp.Some? && t.name in connections then
      connections[t.name := connections[t.name].(tlsFingerprint := t.newFp)]
    else connections
  }

  /** The merge loop's effect on the saved connections. */
  function Merged(connections: map<string, ConnectionEntry>, results: seq<TaskResult>)
    : (m: map<string, ConnectionEntry>)
    ensures m.Keys == connections.Keys
  {
    if |results| == 0 then connections else Merged(WriteBack(connections, results[0]), results[1..])
  }

  /**
   * The merge loop over the name-sorted reports: write learned fingerprints
   * back, note whether any was written and whether any report failed.
   */
  method MergeResults(cfg: Config, results: seq<TaskResult>) returns (cfgChanged: bool, anyError: bool)
    modifies cfg
    ensures cfg.connections == Merged(old(cfg.connections), results)
    ensures cfg.defaultConnection == old(cfg.defaultConnection)
    ensures cfgChanged <==>
              exists i :: 0 <= i < |results| && results[i].newFp.Some? && results[i].name in old(cfg.connections)
    ensures anyError <==> exists i :: 0 <= i < |results| && results[i].output.Failure?
  {
    ghost var start := cfg.connections;
    cfgChanged := false;
    anyError := false;
    var i := 0;
    while i < |results|
      invariant 0 <= i <= |results|
      invariant cfg.connections.Keys == start.Keys
      invariant Merged(start, results) == Merged(cfg.connections, results[i..])
      invariant cfg.defaultConnection == old(cfg.defaultConnection)
      invariant cfgChanged == AnyWrittenBack(results[..i], start)
      invariant anyError == AnyFailed(results[..i])
    {
      var t := results[i];
      assert t.name in cfg.connections <==> t.name in start;
      assert results[i..][1..] == results[i + 1..];
      assert results[..i + 1][..i] == results[..i] && results[..i + 1][i] == t;
      if t.newFp.Some? && t.name in cfg.connections {
        cfg.connections := cfg.connections[t.name := cfg.connections[t.name].(tlsFingerprint := t.newFp)];
        cfgChanged := true;
      }
      if t.output.Failure? {
        anyError := true;
      }
      i := i + 1;
    }
    assert results[..i] == results;
    FlagsOfReports(results, start);
  }

  /** Some report learned a fingerprint for a name in `connections`. */
  function AnyWrittenBack(results: seq<TaskResult>, connections: map<string, ConnectionEntry>): bool {
    if |results| == 0 then false
    else
      var t := results[|results| - 1];
      AnyWrittenBack(results[..|results| - 1], connections) || (t.newFp.Some? && t.name in connections)
  }

  /** Some report failed. */
  function AnyFailed(results: seq<TaskResult>): bool {
    if |results| == 0 then false
    else AnyFailed(results[..|results| - 1]) || results[|results| - 1].output.Failure?
  }

  /** Both flags are the existential statements the merge promises. */
  lemma {:induction false} FlagsOfReports(results: seq<TaskResult>, connections: map<string, ConnectionEntry>)
    ensures AnyWrittenBack(results, connections) <==>
              exists i :: 0 <= i < |results| && results[i].newFp.Some? && results[i].name in connections
    ensures AnyFailed(results) <==> exists i :: 0 <= i < |results| && results[i].output.Failure?
  {
    if |results| > 0 {
      var init := results[..|results| - 1];
      FlagsOfReports(init, connections);
      assert forall i :: 0 <= i < |init| ==> init[i] == results[i];
    }
  }

  /** Tasks for names other than `k` do not depend on the entry under `k`. */
  lemma {:induction false} TasksIgnoreOtherEntries(hash: seq<byte> -> Digest,
                                                   a: map<string, ConnectionEntry>,
                                                   b: map<string, ConnectionEntry>,
                                                   names: seq<string>, peers: string -> Peer,
                                                   cmd: DaemonCmd)
    requires forall n :: n in names ==> n in a && n in b && a[n] == b[n]
    ensures Tasks(hash, a, names, peers, cmd) == Tasks(hash, b, names, peers, cmd)
  {
    if |names| > 0 {
      TasksIgnoreOtherEntries(hash, a, b, names[1..], peers, cmd);
    }
  }

  predicate NoRepeats(names: seq<string>) {
    forall i, j :: 0 <= i < j < |names| ==> names[i] != names[j]
  }

  /**
   * The merge-back is what connecting every target in place would have
   * done: each targeted entry ends as `from_entry` leaves it, every other
   * entry is untouched.
   */
  lemma {:induction false} MergeMatchesFromEntry(hash: seq<byte> -> Digest,
                                                 connections: map<string, ConnectionEntry>,
                                                 names: seq<string>, peers: string -> Peer,
                                                 cmd: DaemonCmd)
    requires forall n :: n in names ==> n in connections
    requires NoRepeats(names)
    ensures var m := Merged(connections, Tasks(hash, connections, names, peers, cmd));
      forall k :: k in connections ==>
        m[k] == if k in names then FromEntrySpec(hash, connections[k], peers(k)).1 else connections[k]
  {
    if |names| > 0 {
      var n := names[0];
      var t := RunTask(hash, n, connections[n], peers(n), cmd);
      var next := WriteBack(connections, t);
      var rest := names[1..];
      assert n !in rest by {
        forall j | 0 <= j < |rest| ensures rest[j] != n {
          assert rest[j] == names[j + 1];
        }
      }
      assert NoRepeats(rest) by {
        forall i, j | 0 <= i < j < |rest| ensures rest[i] != rest[j] {
          assert rest[i] == names[i + 1] && rest[j] == names[j + 1];
        }
      }
      TasksIgnoreOtherEntries(hash, connections, next, rest, peers, cmd);
      MergeMatchesFromEntry(hash, next, rest, peers, cmd);
      assert Tasks(hash, connections, names, peers, cmd)
          == [t] + Tasks(hash, connections, rest, peers, cmd);
      assert next[n] == FromEntrySpec(hash, connections[n], peers(n)).1;
      forall k | k in connections
        ensures Merged(connections, Tasks(hash, connections, names, peers, cmd))[k]
             == if k in names then FromEntrySpec(hash, connections[k], peers(k)).1 else connections[k]
      {
        assert k in names <==> k == n || k in rest;
        if k != n {
          assert next[k] == connections[k];
        }
      }
    }
  }

  /**
   * The fan-out's effect: one report per target from the entries as they
   * were, each target's entry left as `from_entry` leaves it and every other
   * one untouched, a save iff a fingerprint was learned, and success iff
   * every target succeeded and any needed save did.
   */
  twostate predicate FannedOut(cfg: Config, hash: seq<byte> -> Digest, names: seq<string>,
                               cmd: DaemonCmd, peers: string -> Peer, saveOk: bool,
                               new r: Result<(), CliError>, new results: seq<TaskResult>, new saved: bool)
    reads cfg
  {
    (forall n :: n in names ==> n in old(cfg.connections))
    && results == Tasks(hash, old(cfg.connections), names, peers, cmd)
    && cfg.connections.Keys == old(cfg.connections).Keys
    && (forall k :: k in old(cfg.connections) ==>
          cfg.connections[k]
          == if k in names then FromEntrySpec(hash, old(cfg.connections)[k], peers(k)).1
             else old(cfg.connections)[k])
    && (saved <==> exists i :: 0 <= i < |results| && results[i].newFp.Some?)
    && (r.Success? <==>
          (forall i :: 0 <= i < |results| ==> results[i].output.Success?) && (saveOk || !saved))
  }

  /**
   * The fan-out for a list of saved, distinct targets: one task per target,
   * the merge, the save iff a fingerprint was written back, and the overall
   * failure iff some target failed.
   */
  method RunTargets(cfg: Config, hash: seq<byte> -> Digest, names: seq<string>, cmd: DaemonCmd,
                    peers: string -> Peer, saveOk: bool)
    returns (r: Result<(), CliError>, results: seq<TaskResult>, saved: bool)
    requires forall n :: n in names ==> n in cfg.connections
    requires NoRepeats(names)
    modifies cfg
    ensures FannedOut(cfg, hash, names, cmd, peers, saveOk, r, results, saved)
    ensures cfg.defaultConnection == old(cfg.defaultConnection)
    ensures r.Failure? ==> r == Failure(SaveFailed) || r == Failure(Usage(OneOrMoreFailed))
  {
    saved := false;
    results := Tasks(hash, cfg.connections, names, peers, cmd);
    MergeMatchesFromEntry(hash, cfg.connections, names, peers, cmd);
    assert forall i :: 0 <= i < |results| ==> results[i].name in cfg.connections;
    var cfgChanged, anyError := MergeResults(cfg, results);
    if cfgChanged {
      if !saveOk {
        return Failure(SaveFailed), results, true;
      }
      saved := true;
    }
    if anyError {
      return Failure(Usage(OneOrMoreFailed)), results, saved;
    }
    r := Success(());
  }

  /**
   * `cmd_with_connections`: select the targets, then fan out over them. An
   * unknown name fails before any connection; an empty config does nothing.
   */
  method CmdWithConnections(cfg: Config, hash: seq<byte> -> Digest, filter: Option<string>,
                            cmd: DaemonCmd, peers: string -> Peer, saveOk: bool)
    returns (r: Result<(), CliError>, results: seq<TaskResult>, saved: bool)
    modifies cfg
    ensures filter.Some? && filter.value !in old(cfg.connections) ==>
              r == Failure(Usage(UnknownTargetMessage(filter.value))) && results == [] && !saved
              && cfg.connections == old(cfg.connections)
    ensures filter.None? && old(cfg.connections) == map[] ==>
              r.Success? && results == [] && !saved && cfg.connections == old(cfg.connections)
    ensures filter.Some? && filter.value in old(cfg.connections) ==>
              FannedOut(cfg, hash, [filter.value], cmd, peers, saveOk, r, results, saved)
    ensures filter.None? && old(cfg.connections) != map[] ==>
              exists names :: ListsSorted(names, old(cfg.connections).Keys)
                              && FannedOut(cfg, hash, names, cmd, peers, saveOk, r, results, saved)
    ensures cfg.defaultConnection == old(cfg.defaultConnection)
  {
    var sel := SelectTargets(cfg.connections, filter);
    if sel.UnknownName? {
      return Failure(Usage(UnknownTargetMessage(sel.name))), [], false;
    }
    if sel.NoConnections? {
      return Success(()), [], false;
    }
    var names := sel.names;
    assert NoRepeats(names) by {
      if filter.None? {
        forall i, j | 0 <= i < j < |names| ensures names[i] != names[j] {
          BelowIrreflexive(names[i]);
        }
      }
    }
    r, results, saved := RunTargets(cfg, hash, names, cmd, peers, saveOk);
  }

  // ------------------------------------------------------ connect/disconnect

  const InvalidPairing: string := "Invalid pairing token \U{2014} expected <token_id>:<secret>"

  /** The entry `cmd_connect` saves for a remote daemon. */
  function TcpEntry(host: string, tokenId: string, tokenSecret: string, fp: Option<string>)
    : ConnectionEntry
  {
    EmptyEntry.(transport := "tcp", tcpHost := Some(host), tokenId := Some(tokenId),
                tokenSecret := Some(tokenSecret), tlsFingerprint := fp)
  }

  /** The entry `cmd_connect` saves for the local daemon. */
  function UnixEntry(socketPath: string): ConnectionEntry {
    EmptyEntry.(transport := "unix", unixSocket := Some(socketPath))
  }

  /** What `cmd_connect` reports when the local socket refuses the connection. */
  function UnixUnreachableMessage(socketPath: string, ioError: string): string {
    "Cannot reach vexd at " + socketPath + " \U{2014} is it running? (" + ioError + ")"
  }

  /**
   * `cmd_connect`: check the local socket, or read a pairing line, split it
   * at the first `':'` and authenticate over TLS with nothing pinned; save
   * the entry only after that succeeded. (The current client's `upsert`
   * takes no flag; `setDefault` is false there and the older client passes
   * its `--set-default`.)
   */
  method CmdConnect(cfg: Config, hash: seq<byte> -> Digest, name: string, host: Option<string>,
                    pairingLine: string, socketPath: string, peer: Peer, setDefault: bool,
                    saveOk: bool)
    returns (r: Result<(), CliError>, sent: seq<AuthToken>)
    modifies cfg
    ensures host.None? ==> sent == []
    ensures host.None? && !peer.reachable ==>
              r == Failure(Usage(UnixUnreachableMessage(socketPath, peer.ioError)))
              && sent == [] && cfg.connections == old(cfg.connections)
              && cfg.defaultConnection == old(cfg.defaultConnection)
    ensures host.None? && peer.reachable ==>
              cfg.connections == old(cfg.connections)[name := UnixEntry(socketPath)]
              && (r.Success? <==> saveOk)
    ensures host.Some? && SplitOnce(Trim(pairingLine), ':').None? ==>
              r == Failure(Usage(InvalidPairing)) && sent == [] && cfg.connections == old(cfg.connections)
    ensures host.Some? && SplitOnce(Trim(pairingLine), ':').Some? ==>
              var (id, secret) := SplitOnce(Trim(pairingLine), ':').value;
              var (c, s) := TcpConnectSpec(hash, host.value, id, secret, None, peer);
              sent == s
              && (c.Failure? ==> r == Failure(ConnectFailed(c.error))
                                 && cfg.connections == old(cfg.connections)
                                 && cfg.defaultConnection == old(cfg.defaultConnection))
              && (c.Success? ==>
                    cfg.connections
                    == old(cfg.connections)[name := TcpEntry(host.value, id, secret,
                                                             Some(Fingerprint(hash, peer.cert)))]
                    && (r.Success? <==> saveOk))
    ensures r.Success? ==>
              name in cfg.connections
              && cfg.defaultConnection
                 == if setDefault || old(cfg.defaultConnection).None? then Some(name)
                    else old(cfg.defaultConnection)
  {
    sent := [];
    var entry;
    if host.None? {
      if !peer.reachable {
        return Failure(Usage(UnixUnreachableMessage(socketPath, peer.ioError))), [];
      }
      entry := UnixEntry(socketPath);
    } else {
      var pairing := Trim(pairingLine);
      var split := SplitOnce(pairing, ':');
      if split.None? {
        return Failure(Usage(InvalidPairing)), [];
      }
      var (id, secret) := split.value;
      var c;
      c, sent := TcpConnect(hash, host.value, id, secret, None, peer);
      if c.Failure? {
        return Failure(ConnectFailed(c.error)), sent;
      }
      LearnsOnlyOnFirstConnect(hash, host.value, id, secret, None, peer);
      entry := TcpEntry(host.value, id, secret, c.value);
    }
    cfg.Upsert(name, entry, setDefault);
    r := if saveOk then Success(()) else Failure(SaveFailed);
  }

  /**
   * Trust on first use, end to end: the entry `vex connect` saves reconnects
   * to the same server without changing, and a server presenting any other
   * certificate is refused before the credentials are sent.
   */
  lemma SavedEntryPinsServer(hash: seq<byte> -> Digest, host: string, id: string, secret: string,
                             first: Peer, later: Peer)
    requires TcpConnectSpec(hash, host, id, secret, None, first).0.Success?
    requires later.reachable && later.nameOk && later.handshakeOk
    ensures var e := TcpEntry(host, id, secret, Some(Fingerprint(hash, first.cert)));
      var (r, updated, sent) := FromEntrySpec(hash, e, later);
      updated == e
      && (Fingerprint(hash, later.cert) == Fingerprint(hash, first.cert) ==>
            (r.Success? <==> later.authReply == Some(Pong)))
      && (Fingerprint(hash, later.cert) != Fingerprint(hash, first.cert) ==>
            r.Failure? && sent == [])
  {
    var e := TcpEntry(host, id, secret, Some(Fingerprint(hash, first.cert)));
    FromEntryOnlyPins(hash, e, later);
  }

  const SpecifyConnection: string := "Specify a connection with -c <name> or use --all."

  /**
   * `cmd_disconnect`: `--all` removes everything (and reports how many);
   * `-c name` removes that connection and is an error for an unknown name;
   * giving neither is an error.
   */
  method CmdDisconnect(cfg: Config, all: bool, connection: Option<string>, saveOk: bool)
    returns (r: Result<string, CliError>)
    modifies cfg
    ensures all ==>
              cfg.connections == map[] && cfg.defaultConnection.None?
              && (r.Success? <==> saveOk)
              && (r.Success? ==> r.value == "Removed " + NatToString(|old(cfg.connections)|)
                                             + " connection(s).")
    ensures !all && connection.None? ==>
              r == Failure(Usage(SpecifyConnection)) && cfg.connections == old(cfg.connections)
    ensures !all && connection.Some? ==>
              cfg.connections == old(cfg.connections) - {connection.value}
              && (connection.value !in old(cfg.connections) ==>
                    r == Failure(Usage("Unknown connection '" + connection.value + "'.")))
              && (connection.value in old(cfg.connections) ==> (r.Success? <==> saveOk))
    ensures old(cfg.Valid()) ==> cfg.Valid()
  {
    if all {
      var count := |cfg.connections|;
      cfg.ClearAll();
      if !saveOk {
        return Failure(SaveFailed);
      }
      return Success("Removed " + NatToString(count) + " connection(s).");
    }
    if connection.None? {
      return Failure(Usage(SpecifyConnection));
    }
    var name := connection.value;
    var removed := cfg.Remove(name);
    if !removed {
      return Failure(Usage("Unknown connection '" + name + "'."));
    }
    if !saveOk {
      return Failure(SaveFailed);
    }
    r := Success("Removed connection '" + name + "'.");
  }
}
