/**
 * The client side of a connection (`Connection::from_entry`, `tcp_connect`
 * and the trust-on-first-use certificate check). The network is a `Peer`:
 * what the daemon behind an entry does at each step. The TLS handshake is
 * reduced to the verifier's accept/reject decision plus whether the rest of
 * the handshake succeeds.
 */
module Connect {
  import opened Wrappers
  import opened Strings
  import opened Hex
  import opened Proto
  import opened ClientConfig
  import Tcp

  /** Where `from_entry` looks for the daemon when an entry names no socket. */
  const DefaultUnixSocket: string := "/tmp/vexd.sock"

  /** How the daemon behind an entry behaves, step by step. */
  datatype Peer = Peer(
    /** the Unix socket or the TCP port accepts the connection */
    reachable: bool,
    /** how the operating system reports a refused connection */
    ioError: string,
    /** rustls accepts the host name as a `ServerName` */
    nameOk: bool,
    /** the end-entity certificate the server presents, as DER bytes */
    cert: seq<byte>,
    /** the handshake succeeds apart from the fingerprint check */
    handshakeOk: bool,
    /** the reply to the `AuthToken` frame; None when the frame exchange fails */
    authReply: Option<Response>,
    /** the reply to the command run afterwards; None when the frame exchange fails */
    cmdReply: Option<Response>)

  /** Why a connection attempt failed. */
  datatype ConnectError =
    | MissingField(field: string)
    | UnixUnreachable(path: string)
    | BadPort(host: string)
    | TcpConnectFailed(hostname: string, port: nat)
    | InvalidServerName(hostname: string)
      /** `cause` is the verifier's message when it refused the certificate */
    | TlsHandshakeFailed(cause: Option<string>)
    | FrameFailed
    | AuthFailed(error: VexProtoError)
    | UnexpectedAuthResponse(response: Response)

  /** The established stream. */
  datatype Connection = UnixStream | TlsStream

  /** The client's fingerprint of a certificate: lowercase hex of its hash. */
  function Fingerprint(hash: seq<byte> -> Digest, der: seq<byte>): (fp: string)
    ensures |fp| == 64
    ensures HexToBytes(fp) == Success(hash(der))
  {
    HexRoundTrip(hash(der));
    BytesToHex(hash(der))
  }

  /** Client and daemon compute the same fingerprint of the daemon's certificate. */
  lemma ClientAndDaemonFingerprintsAgree(hash: seq<byte> -> Digest, der: seq<byte>,
                                         chain: seq<seq<byte>>)
    ensures Tcp.CertFingerprint(hash, [der] + chain) == Success(Fingerprint(hash, der))
  {
  }

  /** The verifier's refusal; it always names the mismatch. */
  function MismatchMessage(expected: string, got: string): (m: string)
    ensures ContainsSubstring(m, "fingerprint mismatch")
  {
    var rest := "!\n  expected: " + expected + "\n  got:      " + got
                + "\nIf you trust the new certificate, delete the connection entry and reconnect.";
    ContainsMiddle("TLS certificate ", "fingerprint mismatch", rest);
    "TLS certificate " + "fingerprint mismatch" + rest
  }

  /** A certificate passes the check iff nothing is pinned or the pin is its fingerprint. */
  predicate CertAccepted(expected: Option<string>, fp: string) {
    expected.None? || expected.value == fp
  }

  /** `TofuVerifier`: the pinned fingerprint, if any, and the last one seen. */
  class TofuVerifier {
    const expected: Option<string>
    const hash: seq<byte> -> Digest
    var seen: Option<string>

    constructor (expected: Option<string>, hash: seq<byte> -> Digest)
      ensures this.expected == expected && this.hash == hash && seen.None?
    {
      this.expected := expected;
      this.hash := hash;
      seen := None;
    }

    /**
     * `verify_server_cert`: record the fingerprint first, then refuse a
     * certificate that differs from the pinned one.
     */
    method VerifyServerCert(endEntity: seq<byte>) returns (r: Result<(), string>)
      modifies this
      ensures seen == Some(Fingerprint(hash, endEntity))
      ensures r.Success? <==> CertAccepted(expected, Fingerprint(hash, endEntity))
      ensures r.Failure? ==> r.error == MismatchMessage(expected.value, Fingerprint(hash, endEntity))
    {
      var fp := Fingerprint(hash, endEntity);
      seen := Some(fp);
      if expected.Some? && expected.value != fp {
        r := Failure(MismatchMessage(expected.value, fp));
      } else {
        r := Success(());
      }
    }
  }

  // ------------------------------------------------------------ host:port

  /** `parse_host_port`: split at the last `':'`; without one the port is 7422. */
  function ParseHostPort(host: string): (r: Result<(string, nat), ConnectError>)
    ensures ':' !in host ==> r == Success((host, DefaultTcpPort))
    ensures r.Failure? ==> r == Failure(BadPort(host))
    ensures r.Success? ==> r.value.1 <= 65535
    ensures r.Success? && ':' in host ==>
              var h := r.value.0;
              |h| < |host| && host[..|h|] == h && host[|h|] == ':'
              && ':' !in host[|h| + 1..] && ParseU16(host[|h| + 1..]) == Some(r.value.1)
    ensures r.Failure? <==> ':' in host && ParseU16(RSplitOnce(host, ':').value.1).None?
  {
    match RSplitOnce(host, ':')
    case None => Success((host, DefaultTcpPort))
    case Some((h, p)) =>
      assert host == h + [':'] + p;
      assert host[..|h|] == h && host[|h| + 1..] == p;
      match ParseU16(p)
      case None => Failure(BadPort(host))
      case Some(port) => Success((h, port))
  }

  /** A host followed by `:` and a port in range parses back, even when the host has colons. */
  lemma ParseHostPortOfJoin(h: string, port: nat)
    requires port <= 65535
    ensures ParseHostPort(h + ":" + NatToString(port)) == Success((h, port))
  {
    var digits := NatToString(port);
    assert ':' !in digits by {
      forall i | 0 <= i < |digits| ensures digits[i] != ':' {
        assert IsDigit(digits[i]);
      }
    }
    assert h + ":" + digits == h + [':'] + digits;
    RSplitOnceOfJoin(h, ':', digits);
    ParseU16OfNat(port);
  }

  /** A port that is empty is refused. */
  lemma EmptyPortRefused(h: string)
    ensures ParseHostPort(h + ":") == Failure(BadPort(h + ":"))
  {
    RSplitOnceOfJoin(h, ':', "");
    assert h + [':'] + "" == h + ":";
  }

  /** A port above 65535 is refused. */
  lemma OversizedPortRefused(h: string)
    ensures ParseHostPort(h + ":65536") == Failure(BadPort(h + ":65536"))
  {
    RSplitOnceOfJoin(h, ':', "65536");
    assert h + [':'] + "65536" == h + ":65536";
    OversizedValue();
  }

  lemma OversizedValue()
    ensures ParseU16("65536") == None
  {
    assert "65536"[..4] == "6553" && "6553"[..3] == "655";
    assert "655"[..2] == "65" && "65"[..1] == "6" && "6"[..0] == "";
    assert DecimalValue("655") == 655;
    assert DecimalValue("65536") == 65536;
  }

  /** As `str::parse::<u16>` does, a leading `'+'` is accepted. */
  lemma PlusSignedPortAccepted(h: string)
    ensures ParseHostPort(h + ":+80") == Success((h, 80))
  {
    RSplitOnceOfJoin(h, ':', "+80");
    assert h + [':'] + "+80" == h + ":+80";
    PlusEightyValue();
  }

  lemma PlusEightyValue()
    ensures ParseU16("+80") == Some(80)
  {
    assert "+80"[1..] == "80";
    assert "80"[..1] == "8" && "8"[..0] == "";
    assert DecimalValue("8") == 8;
    assert DecimalValue("80") == 80;
  }

  // ---------------------------------------------------------- tcp_connect

  /**
   * What `tcp_connect` returns (the fingerprint to pin, when one was learned)
   * and the credential frames it writes, given how the peer behaves.
   */
  function TcpConnectSpec(hash: seq<byte> -> Digest, host: string, tokenId: string,
                          tokenSecret: string, existing: Option<string>, peer: Peer)
    : (r: (Result<Option<string>, ConnectError>, seq<AuthToken>))
    ensures r.1 == [] || r.1 == [AuthToken(tokenId, tokenSecret)]
    ensures r.0.Success? ==> r.1 != [] && peer.authReply == Some(Pong)
    ensures r.0.Success? && r.0.value.Some? ==>
              existing.None? && r.0.value.value == Fingerprint(hash, peer.cert)
  {
    match ParseHostPort(host)
    case Failure(e) => (Failure(e), [])
    case Success((hostname, port)) =>
      if !peer.reachable then (Failure(TcpConnectFailed(hostname, port)), [])
      else if !peer.nameOk then (Failure(InvalidServerName(hostname)), [])
      else
        var fp := Fingerprint(hash, peer.cert);
        if !CertAccepted(existing, fp) then
          (Failure(TlsHandshakeFailed(Some(MismatchMessage(existing.value, fp)))), [])
        else if !peer.handshakeOk then (Failure(TlsHandshakeFailed(None)), [])
        else
          var sent := [AuthToken(tokenId, tokenSecret)];
          if peer.authReply.None? then (Failure(FrameFailed), sent)
          else if peer.authReply.value.Pong? then (Success(if existing.None? then Some(fp) else None), sent)
          else if peer.authReply.value.Error? then (Failure(AuthFailed(peer.authReply.value.error)), sent)
          else (Failure(UnexpectedAuthResponse(peer.authReply.value)), sent)
  }

  /**
   * `tcp_connect`: parse the address, connect, run the TLS handshake through
   * a fresh verifier, and only then send the credentials and read the reply.
   */
  method TcpConnect(hash: seq<byte> -> Digest, host: string, tokenId: string, tokenSecret: string,
                    existing: Option<string>, peer: Peer)
    returns (r: Result<Option<string>, ConnectError>, sent: seq<AuthToken>)
    ensures (r, sent) == TcpConnectSpec(hash, host, tokenId, tokenSecret, existing, peer)
  {
    var hp := ParseHostPort(host);
    if hp.Failure? {
      return Failure(hp.error), [];
    }
    var (hostname, port) := hp.value;
    var verifier := new TofuVerifier(existing, hash);
    if !peer.reachable {
      return Failure(TcpConnectFailed(hostname, port)), [];
    }
    if !peer.nameOk {
      return Failure(InvalidServerName(hostname)), [];
    }
    var check := verifier.VerifyServerCert(peer.cert);
    if check.Failure? {
      return Failure(TlsHandshakeFailed(Some(check.error))), [];
    }
    if !peer.handshakeOk {
      return Failure(TlsHandshakeFailed(None)), [];
    }
    var newFingerprint := if existing.None? then verifier.seen else None;
    sent := [AuthToken(tokenId, tokenSecret)];
    if peer.authReply.None? {
      r := Failure(FrameFailed);
    } else if peer.authReply.value.Pong? {
      r := Success(newFingerprint);
    } else if peer.authReply.value.Error? {
      r := Failure(AuthFailed(peer.authReply.value.error));
    } else {
      r := Failure(UnexpectedAuthResponse(peer.authReply.value));
    }
  }

  /** The handshake conditions: everything before the credentials are written. */
  predicate HandshakeSucceeds(hash: seq<byte> -> Digest, host: string, existing: Option<string>,
                              peer: Peer) {
    ParseHostPort(host).Success? && peer.reachable && peer.nameOk
    && CertAccepted(existing, Fingerprint(hash, peer.cert)) && peer.handshakeOk
  }

  /**
   * Credentials are written once, and only after the handshake succeeded;
   * the connection is established iff the daemon then answers `Pong`.
   */
  lemma CredentialsOnlyAfterHandshake(hash: seq<byte> -> Digest, host: string, tokenId: string,
                                      tokenSecret: string, existing: Option<string>, peer: Peer)
    ensures var (r, sent) := TcpConnectSpec(hash, host, tokenId, tokenSecret, existing, peer);
      (sent != [] <==> HandshakeSucceeds(hash, host, existing, peer))
      && (sent != [] ==> sent == [AuthToken(tokenId, tokenSecret)])
      && (r.Success? <==> HandshakeSucceeds(hash, host, existing, peer) && peer.authReply == Some(Pong))
  {
  }

  /** A pinned fingerprint that differs from the server's fails the handshake before any credential is sent. */
  lemma MismatchSendsNoCredentials(hash: seq<byte> -> Digest, host: string, tokenId: string,
                                   tokenSecret: string, pinned: string, peer: Peer)
    requires ParseHostPort(host).Success? && peer.reachable && peer.nameOk
    requires pinned != Fingerprint(hash, peer.cert)
    ensures var (r, sent) := TcpConnectSpec(hash, host, tokenId, tokenSecret, Some(pinned), peer);
      sent == [] && r.Failure? && r.error.TlsHandshakeFailed? && r.error.cause.Some?
      && ContainsSubstring(r.error.cause.value, "fingerprint mismatch")
  {
  }

  /** A fingerprint is returned for pinning only on a first connect, and it is the server's. */
  lemma LearnsOnlyOnFirstConnect(hash: seq<byte> -> Digest, host: string, tokenId: string,
                                 tokenSecret: string, existing: Option<string>, peer: Peer)
    ensures var r := TcpConnectSpec(hash, host, tokenId, tokenSecret, existing, peer).0;
      r.Success? ==>
        (r.value.Some? <==> existing.None?)
        && (r.value.Some? ==> r.value.value == Fingerprint(hash, peer.cert))
  {
  }

  /** Every reply but `Pong` to the credentials is a failure. */
  lemma AuthReplyDecides(hash: seq<byte> -> Digest, host: string, tokenId: string,
                         tokenSecret: string, existing: Option<string>, peer: Peer)
    requires HandshakeSucceeds(hash, host, existing, peer)
    requires peer.authReply.Some? && peer.authReply.value != Pong
    ensures var r := TcpConnectSpec(hash, host, tokenId, tokenSecret, existing, peer).0;
      r.Failure?
      && (peer.authReply.value.Error? ==> r.error == AuthFailed(peer.authReply.value.error))
      && (!peer.authReply.value.Error? ==> r.error == UnexpectedAuthResponse(peer.authReply.value))
  {
  }

  // ----------------------------------------------------------- from_entry

  /**
   * What `from_entry` yields, the entry as it leaves it, and the credential
   * frames written. Only the TCP branch can change the entry.
   */
  function FromEntrySpec(hash: seq<byte> -> Digest, entry: ConnectionEntry, peer: Peer)
    : (r: (Result<Connection, ConnectError>, ConnectionEntry, seq<AuthToken>))
    ensures r.1.(tlsFingerprint := entry.tlsFingerprint) == entry
    ensures r.1 != entry ==> entry.tlsFingerprint.None? && r.0.Success?
    ensures r.2 != [] ==> entry.transport == "tcp"
    ensures r.0.Success? ==> (r.0.value == TlsStream <==> entry.transport == "tcp")
  {
    if entry.transport == "tcp" then
      if entry.tcpHost.None? then (Failure(MissingField("tcp_host")), entry, [])
      else if entry.tokenId.None? then (Failure(MissingField("token_id")), entry, [])
      else if entry.tokenSecret.None? then (Failure(MissingField("token_secret")), entry, [])
      else
        var (r, sent) := TcpConnectSpec(hash, entry.tcpHost.value, entry.tokenId.value,
                                        entry.tokenSecret.value, entry.tlsFingerprint, peer);
        match r
        case Failure(e) => (Failure(e), entry, sent)
        case Success(newFp) =>
          (Success(TlsStream), if newFp.Some? then entry.(tlsFingerprint := newFp) else entry, sent)
    else
      var path := entry.unixSocket.GetOr(DefaultUnixSocket);
      if peer.reachable then (Success(UnixStream), entry, []) else (Failure(UnixUnreachable(path)), entry, [])
  }

  /** `from_entry`: the entry is passed by `&mut`, so the method hands back its new value. */
  method FromEntry(hash: seq<byte> -> Digest, entry: ConnectionEntry, peer: Peer)
    returns (r: Result<Connection, ConnectError>, updated: ConnectionEntry, sent: seq<AuthToken>)
    ensures (r, updated, sent) == FromEntrySpec(hash, entry, peer)
  {
    updated := entry;
    sent := [];
    if entry.transport == "tcp" {
      if entry.tcpHost.None? {
        return Failure(MissingField("tcp_host")), entry, [];
      }
      if entry.tokenId.None? {
        return Failure(MissingField("token_id")), entry, [];
      }
      if entry.tokenSecret.None? {
        return Failure(MissingField("token_secret")), entry, [];
      }
      var res;
      res, sent := TcpConnect(hash, entry.tcpHost.value, entry.tokenId.value, entry.tokenSecret.value,
                              entry.tlsFingerprint, peer);
      if res.Failure? {
        return Failure(res.error), entry, sent;
      }
      if res.value.Some? {
        updated := updated.(tlsFingerprint := res.value);
      }
      r := Success(TlsStream);
    } else {
      var path := entry.unixSocket.GetOr(DefaultUnixSocket);
      r := if peer.reachable then Success(UnixStream) else Failure(UnixUnreachable(path));
    }
  }

  /**
   * `from_entry` only ever fills in a missing fingerprint: a pinned one is
   * never changed, and nothing else in the entry is.
   */
  lemma FromEntryOnlyPins(hash: seq<byte> -> Digest, entry: ConnectionEntry, peer: Peer)
    ensures var (r, updated, _) := FromEntrySpec(hash, entry, peer);
      updated == entry
      || (entry.transport == "tcp" && entry.tlsFingerprint.None? && r.Success?
          && updated == entry.(tlsFingerprint := Some(Fingerprint(hash, peer.cert))))
    ensures entry.tlsFingerprint.Some? ==> FromEntrySpec(hash, entry, peer).1 == entry
  {
    if entry.transport == "tcp" && entry.tcpHost.Some? && entry.tokenId.Some? && entry.tokenSecret.Some? {
      LearnsOnlyOnFirstConnect(hash, entry.tcpHost.value, entry.tokenId.value, entry.tokenSecret.value,
                               entry.tlsFingerprint, peer);
    }
  }

  /** An incomplete TCP entry fails before any I/O. */
  lemma IncompleteTcpEntryFailsFirst(hash: seq<byte> -> Digest, entry: ConnectionEntry, peer: Peer)
    requires entry.transport == "tcp"
    requires entry.tcpHost.None? || entry.tokenId.None? || entry.tokenSecret.None?
    ensures var (r, updated, sent) := FromEntrySpec(hash, entry, peer);
      r.Failure? && r.error.MissingField? && updated == entry && sent == []
  {
  }

  /** Any transport other than "tcp" is a Unix socket, `/tmp/vexd.sock` unless the entry names one. */
  lemma OtherTransportsAreUnix(hash: seq<byte> -> Digest, entry: ConnectionEntry, peer: Peer)
    requires entry.transport != "tcp"
    ensures var (r, updated, sent) := FromEntrySpec(hash, entry, peer);
      updated == entry && sent == []
      && (r.Success? <==> peer.reachable)
      && (r.Success? ==> r.value == UnixStream)
      && (entry.unixSocket.None? && r.Failure? ==> r.error == UnixUnreachable("/tmp/vexd.sock"))
  {
  }
}
