/**
 * The client's saved connections (`~/.vex/config.toml`): named connection
 * entries and an optional default. Loading and saving the TOML file is not
 * modelled; the class is the in-memory `Config` the commands edit.
 */
module ClientConfig {
  import opened Wrappers

  /** How to reach one daemon: `transport` is "unix" or "tcp". */
  datatype ConnectionEntry = ConnectionEntry(
    transport: string,
    unixSocket: Option<string>,
    tcpHost: Option<string>,
    tokenId: Option<string>,
    tokenSecret: Option<string>,
    tlsFingerprint: Option<string>)

  /** `ConnectionEntry::default()`: every field empty. */
  const EmptyEntry := ConnectionEntry("", None, None, None, None, None)

  const NoDefaultMessage: string := "No default connection set. Run 'vex connect' or 'vex use <name>'."

  function UnknownConnectionMessage(key: string): string {
    "Unknown connection '" + key + "'"
  }

  /** The invariant the editing operations keep: the default, if any, names a saved connection. */
  predicate DefaultIsSaved(default: Option<string>, connections: map<string, ConnectionEntry>) {
    default.None? || default.value in connections
  }

  class Config {
    var defaultConnection: Option<string>
    var connections: map<string, ConnectionEntry>

    /** A config as loaded from disk; a hand-edited file need not satisfy `Valid`. */
    constructor (defaultConnection: Option<string>, connections: map<string, ConnectionEntry>)
      ensures this.defaultConnection == defaultConnection && this.connections == connections
    {
      this.defaultConnection := defaultConnection;
      this.connections := connections;
    }

    predicate Valid()
      reads this
    {
      DefaultIsSaved(defaultConnection, connections)
    }

    /**
     * `resolve`: the explicit name, else the default; then the entry under it.
     * On success the key is saved and the entry is the one saved under it.
     */
    function Resolve(name: Option<string>): (r: Result<(string, ConnectionEntry), string>)
      reads this
      ensures name.None? && defaultConnection.None? ==> r == Failure(NoDefaultMessage)
      ensures r.Success? <==>
                (name.Some? && name.value in connections)
                || (name.None? && defaultConnection.Some? && defaultConnection.value in connections)
      ensures r.Success? ==>
                r.value.0 in connections && connections[r.value.0] == r.value.1
                && (name.Some? ==> r.value.0 == name.value)
                && (name.None? ==> defaultConnection == Some(r.value.0))
      ensures r.Failure? && (name.Some? || defaultConnection.Some?) ==>
                r.error == UnknownConnectionMessage(name.GetOr(defaultConnection.GetOr("")))
    {
      var key := match name
        case Some(n) => Success(n)
        case None =>
          if defaultConnection.Some? then Success(defaultConnection.value)
          else Failure(NoDefaultMessage);
      match key
      case Failure(e) => Failure(e)
      case Success(k) =>
        if k in connections then Success((k, connections[k]))
        else Failure(UnknownConnectionMessage(k))
    }

    /** `upsert`: store `entry` under `name`; it becomes the default if asked or if there was none. */
    method Upsert(name: string, entry: ConnectionEntry, setDefault: bool)
      modifies this
      ensures connections == old(connections)[name := entry]
      ensures defaultConnection
           == if setDefault || old(defaultConnection).None? then Some(name) else old(defaultConnection)
      ensures old(Valid()) || setDefault ==> Valid()
      ensures Resolve(Some(name)) == Success((name, entry))
      ensures setDefault ==> Resolve(None) == Success((name, entry))
    {
      if setDefault || defaultConnection.None? {
        defaultConnection := Some(name);
      }
      connections := connections[name := entry];
    }

    /**
     * `remove`: delete `name` and report whether it was saved. Removing the
     * default makes some remaining connection (the map's first key, which
     * the hash map leaves unspecified) the default, or none if empty.
     */
    method Remove(name: string) returns (removed: bool)
      modifies this
      ensures removed <==> name in old(connections)
      ensures connections == old(connections) - {name}
      ensures !(removed && old(defaultConnection) == Some(name)) ==>
                defaultConnection == old(defaultConnection)
      ensures removed && old(defaultConnection) == Some(name) ==>
                (connections == map[] <==> defaultConnection.None?)
                && (defaultConnection.Some? ==> defaultConnection.value in connections)
      ensures old(Valid()) ==> Valid()
    {
      removed := name in connections;
      connections := connections - {name};
      if removed && defaultConnection == Some(name) {
        if connections == map[] {
          defaultConnection := None;
        } else {
          var k :| k in connections;
          defaultConnection := Some(k);
        }
      }
    }

    /** `clear_all`: no connections and no default. */
    method ClearAll()
      modifies this
      ensures connections == map[] && defaultConnection.None?
      ensures Valid()
    {
      connections := map[];
      defaultConnection := None;
    }
  }
}
