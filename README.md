# vex: trust, sessions and bookkeeping, modelled in Dafny

vex runs coding agents in tmux sessions on git worktrees. A daemon (`vexd`) keeps the registered repositories, their workstreams, agents and shells. Clients reach it over a local Unix socket or over TLS with a pairing token. This project models and proves:

- The trust and authentication layer:
  - the length-prefixed wire framing and the pairing string;
  - the hex helpers;
  - the token store of both daemon generations: generate, validate, list, revoke and revoke all;
  - the daemons' connection loops and dispatchers, with admin commands gated to the Unix transport;
  - the TLS listener's `AuthToken` handshake and the client counter;
  - the HTTPS bearer-token endpoint and its status mapping;
  - the client's trust-on-first-use certificate check and `host:port` parsing;
  - the saved-connection configuration;
  - the fan-out of `vex status` / `vex whoami` over saved connections, in both client generations.
- The in-memory bookkeeping:
  - the daemon's repository store with its searches, `refresh_ws_status` and `reconcile`;
  - the dashboard's selection state and display helpers;
  - the standalone tool's repository metadata and worktree-path lookup;
  - its background worker's request de-duplication;
  - its tmux session naming and session creation.

How the model is built:

- Objects whose fields the code updates in place are classes. These are the token store, the daemon, the scrollback ring, the configuration, the repository store, the dashboard, the repository metadata and the worker handle.
- Their methods are proved against specification functions.
- Pure helpers are functions with lemmas.
- The outside world is a set of parameters:
  - the blake3 hash is a function value;
  - random bytes, the clock, serialisation and file writes are parameters;
  - the daemon behind a saved connection is a `Peer` value;
  - tmux / git / gh are function values.

Where a doc comment and the code disagree, the code is followed. In `Config::remove` (crates/vex/src/config.rs:93-100), the comment promises to clear the default, but the code picks another saved key as the new default.

## Model

| member | source | states |
|---|---|---|
| Proto.PairingString | crates/vex-cli/src/proto/mod.rs:168-171 | the pairing string is the id, one `:`, then the secret, with the exact length of the three |
| Proto.PairingStringSplits | crates/vex-cli/src/bin/vex/main.rs:125 | splitting a pairing string at its first `:` gives back the id and the secret whenever the id has no `:` |
| Proto.PairingStringIdWithColon | crates/vex-cli/src/bin/vex/main.rs:125 | an id that contains `:` is not recovered: `a:b` with secret `c` splits as `a` and `b:c` |
| Framing.Be32 | crates/vex-cli/src/proto/mod.rs:256 | `write_u32` writes four bytes whose big-endian value is `n` |
| Framing.Be32Value | crates/vex-cli/src/proto/mod.rs:267 | `read_u32` gives a value below 2^32 |
| Framing.Be32OfValue | crates/vex-cli/src/proto/mod.rs:256-267 | writing the value read from four bytes gives back the same four bytes |
| Framing.Frame | crates/vex-cli/src/proto/mod.rs:250-258 | a frame is 4 + body-length bytes: the body length modulo 2^32 (`len() as u32`), big-endian, then the body |
| Framing.RecvResult | crates/vex-cli/src/proto/mod.rs:262-271 | `recv` is an `Io` error exactly when fewer than 4 + len bytes are there, and then all input is consumed; otherwise it consumes exactly 4 + len bytes, and it succeeds exactly when the body decodes, with that value |
| Framing.Stream.WriteAll | crates/vex-cli/src/proto/mod.rs:256-257 | a write appends the bytes to the output when the peer is still there and fails with nothing written otherwise |
| Framing.Stream.ReadExact | crates/vex-cli/src/proto/mod.rs:267-269 | `read_exact` takes exactly `n` bytes off the input, or fails with `Io` once the input runs dry |
| Framing.Stream.Send | crates/vex-cli/src/proto/mod.rs:250-258 | `send` appends exactly the frame of the encoded message to the output, or fails with `Io` when the peer is gone |
| Framing.Stream.Recv | crates/vex-cli/src/proto/mod.rs:262-271 | `recv` returns what `RecvResult` says and leaves the unread input it says |
| Framing.FrameRoundTrip | crates/vex-cli/src/proto/mod.rs:250-271 | `recv` after `send` returns the message and leaves whatever followed the frame, given `decode(encode(m)) == Some(m)` |
| Framing.TwoFramesInOrder | crates/vex-cli/src/proto/mod.rs:250-271 | two frames written back to back are read back in order |
| Framing.RecvHonoursAnyLength | crates/vex-cli/src/proto/mod.rs:267-268 | any length prefix below 2^32 is honoured, with no maximum: exactly that many bytes are read as the body |
| Framing.ShortBodyIsIo | crates/vex-cli/src/proto/mod.rs:268-269 | a prefix announcing more bytes than arrive is an `Io` error, not a partial body |
| Hex.HexDigit | crates/vex-cli/src/bin/vexd/auth/mod.rs:9 | the digit written for a value below 16 is a lowercase hex digit that parses back to that value |
| Hex.DigitValue | crates/vex-cli/src/bin/vexd/auth/mod.rs:18 | radix-16 digit parsing accepts exactly `0-9`, `a-f` and `A-F`, with a value below 16 |
| Hex.ByteToHex | crates/vex-cli/src/bin/vexd/auth/mod.rs:9 | `{b:02x}` is exactly two lowercase hex digits |
| Hex.BytesToHex | crates/vex-cli/src/bin/vexd/auth/mod.rs:8-10 | `bytes_to_hex` writes two lowercase hex digits per byte |
| Hex.ParsePair | crates/vex-cli/src/bin/vexd/auth/mod.rs:18 | `u8::from_str_radix` on two characters: fails exactly when a digit is invalid, accepts a leading `+` before a single digit, and otherwise gives 16 times the first digit plus the second |
| Hex.HexToBytes | crates/vex-cli/src/bin/vexd/auth/mod.rs:12-20 | `hex_to_bytes` refuses an odd length with the odd-length error, and on success gives half as many bytes as characters |
| Hex.Pairs | crates/vex-cli/src/bin/vexd/auth/mod.rs:16-19 | pair-by-pair decoding of an even-length string: half as many bytes, or an invalid-digit error |
| Hex.PairOfByteToHex | crates/vex-cli/src/bin/vexd/auth/mod.rs:8-20 | the two digits written for a byte parse back to that byte |
| Hex.HexRoundTrip | crates/vex-cli/src/bin/vexd/auth/mod.rs:8-20 | `hex_to_bytes(bytes_to_hex(b)) == b` |
| Hex.BytesToHexInjective | crates/vex-cli/src/bin/vexd/auth/mod.rs:8-10 | different bytes never give the same hex string |
| Hex.DigitsRoundTrip | crates/vex-cli/src/bin/vexd/auth/mod.rs:8-20 | two lowercase digits parse to a byte that is written back as those two digits |
| Hex.CanonicalHexRoundTrip | crates/vex-cli/src/bin/vexd/auth/mod.rs:8-20 | every even-length lowercase hex string decodes, and re-encoding gives back that string |
| Hex.PlusPairAccepted | crates/vex-cli/src/bin/vexd/auth/mod.rs:18 | a `+` in a pair is accepted: `"+f"` decodes to the byte 15 |
| Hex.UppercaseAccepted | crates/vex-cli/src/bin/vexd/auth/mod.rs:18 | uppercase digits decode (`"FF"` to 255) but are never written (`[255]` is written `"ff"`) |
| Auth.FirstWithId | crates/vex-cli/src/bin/vexd/auth/mod.rs:111 | `iter_mut().find` by id: no index exactly when no token has the id, otherwise an in-range index whose token has it |
| Auth.AcceptedIndex | crates/vex-cli/src/bin/vexd/auth/mod.rs:103-129 | an accepted index is the first token with the id, that token is not expired, the secret decodes as hex, and the hash of the decoded bytes matches that token's stored hash |
| Auth.Stamp | crates/vex-cli/src/bin/vexd/auth/mod.rs:124 | a success stamps `last_seen = now` on the accepted token and on no other |
| Auth.WithoutId | crates/vex-cli/src/bin/vexd/auth/mod.rs:138 | `retain` never lengthens the list, and it is shorter exactly when some token had the id |
| Auth.WithoutIdMembers | crates/vex-cli/src/bin/vexd/auth/mod.rs:138 | `retain` keeps every token with another id and brings in nothing, and none of what is left has the id |
| Auth.WithoutIdAppend | crates/vex-cli/src/bin/vexd/auth/mod.rs:138 | the filter distributes over concatenation, so the kept tokens stay in their original order |
| Auth.WithoutIdCounts | crates/vex-cli/src/bin/vexd/auth/mod.rs:138 | each token with another id is kept exactly as many times as it occurred, and no token with the id is kept |
| Auth.AsI64 | crates/vex-cli/src/bin/vexd/auth/mod.rs:86 | `s as i64` on a `u64`: a value below 2^63 is kept and a larger one wraps to s − 2^64, so the result is always an i64 |
| Auth.ExpiryOf | crates/vex-cli/src/bin/vexd/auth/mod.rs:86 | no expiry exactly when `expire_secs` is absent; the wrapped seconds beyond ±i64::MAX/1000, or an instant outside chrono's range (years −262143 to 262142), panic; otherwise the expiry is now plus the wrapped seconds, inside that range |
| Auth.ExpiryInRange | crates/vex-cli/src/bin/vexd/auth/mod.rs:86 | a count of seconds that `Duration::seconds` accepts and that keeps the instant in range expires exactly that many seconds after now |
| Auth.WrappedExpiryInPast | crates/vex-cli/src/bin/vexd/auth/mod.rs:86 | `expire_secs` of 2^64 − k wraps to an expiry k seconds before now, so `u64::MAX` gives a token that expired one second before it was made |
| Auth.HugeExpiryPanics | crates/vex-cli/src/bin/vexd/auth/mod.rs:86 | a count between i64::MAX/1000 and 2^64 − i64::MAX/1000 makes `Duration::seconds` panic |
| Auth.FarExpiryPanics | crates/vex-cli/src/bin/vexd/auth/mod.rs:86 | a count `Duration::seconds` accepts but that carries the instant past chrono's last instant makes the addition panic |
| Auth.NewToken | crates/vex-cli/src/bin/vexd/auth/mod.rs:72-95 | when the expiry does not panic, the new token is created and expires as `generate` sets it: `created_at = now`, no `last_seen`, the given label, and an expiry exactly when `expire_secs` is given, at now plus `expire_secs as i64` |
| Auth.NewTokenFormat | crates/vex-cli/src/bin/vexd/auth/mod.rs:67-96 | a new token has id `tok_` plus 6 lowercase hex digits and no `:`, a 64-digit secret and stored hash, `last_seen = None`, `created_at = now`, and an expiry exactly when `expire_secs` is given, at now plus `expire_secs as i64` |
| Auth.TokenStore.constructor | crates/vex-cli/src/bin/vexd/auth/mod.rs:39-50 | `load`: the store holds the tokens read from disk |
| Auth.TokenStore.Generate | crates/vex-cli/src/bin/vexd/auth/mod.rs:67-99 | an expiry that overflows panics with the store unchanged; otherwise exactly one `NewToken` is appended and the others are unchanged, even when saving then fails; on success it returns that token and the hex of the secret bytes, otherwise the save error |
| Auth.TokenStore.Validate | crates/vex-cli/src/bin/vexd/auth/mod.rs:103-129 | true exactly when `AcceptedIndex` finds a token; then only that token's `last_seen` becomes `now`; on false the list is unchanged |
| Auth.TokenStore.List | crates/vex-cli/src/bin/vexd/auth/mod.rs:132-134 | `list` is the stored tokens, in order |
| Auth.TokenStore.Revoke | crates/vex-cli/src/bin/vexd/auth/mod.rs:136-144 | the tokens become `WithoutId(old tokens, id)`, and the result is true exactly when some token had the id |
| Auth.TokenStore.RevokeAll | crates/vex-cli/src/bin/vexd/auth/mod.rs:146-151 | returns the previous number of tokens and leaves the store empty |
| Auth.NonHexSecretRejected | crates/vexd/src/auth/mod.rs:96-99 | an odd-length or non-hex secret is refused, whatever the store holds |
| Auth.UnknownIdRejected | crates/vex-cli/src/bin/vexd/auth/mod.rs:193-197 | a secret presented for an id no token has is refused |
| Auth.CompareModesAgree | crates/vexd/src/auth/mod.rs:109 | on any hash `generate` stored, the byte comparison of the current daemon and the hex-text comparison of the older daemon agree, and both hold exactly when the digests are equal |
| Auth.OwnSecretAccepted | crates/vex-cli/src/bin/vexd/auth/mod.rs:178-183 | after `generate` appends a token whose id no older token has, its returned secret is accepted at the new token's index before expiry, in both comparison modes |
| Auth.OtherSecretRejected | crates/vex-cli/src/bin/vexd/auth/mod.rs:236-245 | a secret whose hash differs from a token's stored one is refused for that token, so two tokens' secrets do not cross over |
| Auth.ExpiryIsStrict | crates/vex-cli/src/bin/vexd/auth/mod.rs:112-116 | a token is still accepted at the exact instant `expires_at`, and refused one second later |
| Auth.LaterDuplicateNeverAccepted | crates/vex-cli/src/bin/vexd/auth/mod.rs:111 | only the first token with an id is consulted: a later token with the same id is never the one accepted |
| Auth.RevokedIdGone | crates/vex-cli/src/bin/vexd/auth/mod.rs:200-207 | after `revoke(id)` no token has the id, the id never validates, and a second revoke changes nothing |
| Auth.WithoutIdNoop | crates/vex-cli/src/bin/vexd/auth/mod.rs:138 | revoking an id no token has leaves the list as it was |
| Auth.RevokeKeepsOthers | crates/vex-cli/src/bin/vexd/auth/mod.rs:138 | revoking one id leaves the lookup of every other id unchanged: it finds a token exactly when it did before, and the same token |
| Auth.AlternativeSpellingAccepted | crates/vex-cli/src/bin/vexd/auth/mod.rs:104-107 | because `hex_to_bytes` accepts a `+` before a digit, the secret `"+f"` validates exactly as `"0f"` does |
| Server.FormatOpt | crates/vex-cli/src/bin/vexd/server/mod.rs:129-130 | an optional time stamp is shown exactly when present, through the RFC 3339 formatter |
| Server.PairedClientsOf | crates/vex-cli/src/bin/vexd/server/mod.rs:120-132 | one `PairedClient` per stored token, in store order, with that token's id, label and formatted time stamps (no hash) |
| Server.RemoveAt | crates/vex-cli/src/bin/vexd/server/mod.rs:178 | `Vec::remove(i)` keeps everything before `i` and shifts everything after it down by one |
| Server.RepoPosition | crates/vex-cli/src/bin/vexd/server/mod.rs:173 | `position` is the first repository with the id, and none exactly when no repository has it |
| Server.ReposWithId | crates/vex-cli/src/bin/vexd/server/mod.rs:216-221 | the filter keeps exactly the repositories with the id |
| Server.Daemon.constructor | crates/vex-cli/src/bin/vexd/state.rs:48-64 | a new daemon state holds the two stores and a client counter of 0 |
| Server.Daemon.IncrementClients | crates/vex-cli/src/bin/vexd/state.rs:74-76 | `fetch_add(1)` on the `u32` counter, wrapping at 2^32 |
| Server.Daemon.DecrementClients | crates/vex-cli/src/bin/vexd/state.rs:78-80 | `fetch_sub(1)` on the `u32` counter, wrapping below zero |
| Server.Daemon.Dispatch | crates/vex-cli/src/bin/vexd/server/mod.rs:79-281 | no reply exactly when a local `PairCreate` panics on its expiry, and then nothing changes; otherwise the reply and the stores are exactly what `DispatchSpec` gives for the stores before it |
| Server.Daemon.DispatchQuery | crates/vex-cli/src/bin/vexd/server/mod.rs:87-96 | the read-only arms (status, whoami, lists, streaming placeholders) answer as `DispatchSpec` says and change no store |
| Server.Daemon.DispatchRepoChange | crates/vex-cli/src/bin/vexd/server/mod.rs:159-202 | the repository arms answer and leave the repository list as `DispatchSpec` says |
| Server.Daemon.DispatchPairing | crates/vex-cli/src/bin/vexd/server/mod.rs:98-156 | the four `Pair*` arms answer and leave the token store as `DispatchSpec` says, or panic with nothing changed exactly when `PairCreate`'s expiry overflows |
| Server.Daemon.HandleConnection | crates/vex-cli/src/bin/vexd/server/mod.rs:21-77 | the replies written, how the loop ends and the stores it leaves are exactly what `Serve` gives |
| Server.DispatchSpec | crates/vex-cli/src/bin/vexd/server/mod.rs:79-281 | for a command that does not panic: the tokens change only for a local `PairCreate`, `PairRevoke` or `PairRevokeAll`, and the repositories only for the repository commands (the TCP refusal is `Server.LocalOnlyOverTcp`) |
| Server.Serve | crates/vex-cli/src/bin/vexd/server/mod.rs:21-77 | the loop writes at most one reply per frame it reads, and a panic, which ends the loop with no reply, happens only on a Unix connection |
| Server.Daemon.ServeUnixConnection | crates/vex-cli/src/bin/vexd/server/unix.rs:24-33 | a Unix connection runs as `Unix` with no token and sees the counter one higher; it leaves the counter as it found it, except that a panic skips `decrement_clients` and leaves it one higher |
| Server.CounterRoundTrip | crates/vex-cli/src/bin/vexd/server/unix.rs:25-32 | `increment_clients` then `decrement_clients` gives back the counter, wrap-around included |
| Server.LocalOnlyOverTcp | crates/vex-cli/src/bin/vexd/server/mod.rs:99-101 | over TCP, PairCreate, PairList, PairRevoke, PairRevokeAll, RepoRegister and RepoSetDefaultBranch answer `Error(LocalOnly)` and change neither store |
| Server.TcpKeepsTokens | crates/vex-cli/src/bin/vexd/server/mod.rs:98-156 | no command a TCP client sends changes the token store |
| Server.WhoamiReportsSession | crates/vex-cli/src/bin/vexd/server/mod.rs:93-96 | `Whoami` is answered on both transports with the session's token id and `is_local` exactly when the transport is Unix, and changes nothing |
| Server.PairCreateIssuesWorkingPairing | crates/vex-cli/src/bin/vexd/server/mod.rs:98-114 | a local `PairCreate` whose expiry does not overflow appends exactly one token, answers with its id, the plaintext secret and no host; that pairing string splits back into both, and it validates against the new token until it expires |
| Server.PairCreateSaveFailureKeepsToken | crates/vex-cli/src/bin/vexd/server/mod.rs:103-113 | when `tokens.json` cannot be written the reply is `Internal` with that error, yet the new token stays in memory |
| Server.PairCreateOverflowEndsConnection | crates/vex-cli/src/bin/vexd/server/mod.rs:98-104 | a local `PairCreate` whose expiry overflows panics the connection task: no reply, nothing after it is read, and no store changes |
| Server.PairRevokeReply | crates/vex-cli/src/bin/vexd/server/mod.rs:135-146 | `PairRevoke` answers `Ok` exactly when some token had the id, else `NotFound` with nothing changed; afterwards no token has the id |
| Server.PairRevokeAllReply | crates/vex-cli/src/bin/vexd/server/mod.rs:148-156 | `PairRevokeAll` answers `Revoked` with the number of tokens deleted and empties the store |
| Server.RepoUnregisterRemovesFirst | crates/vex-cli/src/bin/vexd/server/mod.rs:171-184 | `RepoUnregister`, on either transport, removes exactly the first repository with the id, else answers `NotFound` with nothing changed |
| Server.WorkstreamListFilter | crates/vex-cli/src/bin/vexd/server/mod.rs:212-224 | `WorkstreamList` returns every repository without a filter, else exactly those with the id, and changes nothing |
| Server.PairListShowsTokens | crates/vex-cli/src/bin/vexd/server/mod.rs:116-133 | `PairList` shows every token in store order with its id and label, and a last-seen time exactly when it has one |
| Server.Replay | crates/vex-cli/src/bin/vexd/server/mod.rs:34-74 | dispatching commands that do not panic one after another gives one reply per command |
| Server.Deliver | crates/vex-cli/src/bin/vexd/server/mod.rs:34-40 | the commands as the loop receives them, in order |
| Server.ServeRepliesInOrder | crates/vex-cli/src/bin/vexd/server/mod.rs:34-74 | the loop's replies to a run of non-streaming commands that do not panic are their dispatch replies in order, each against the stores the one before left, and the loop then goes on from those stores |
| Server.OneReplyPerCommand | crates/vex-cli/src/bin/vexd/server/mod.rs:34-76 | every non-streaming command that does not panic gets exactly one reply, in order, and the loop ends `Closed` when the peer closes |
| Server.StreamingOverTcpRefused | crates/vex-cli/src/bin/vexd/server/mod.rs:43-65 | `ShellRegister` or `AttachShell` over TCP gets one `LocalOnly` and ends the connection; nothing after it is read |
| Server.ReadFailureEndsSession | crates/vex-cli/src/bin/vexd/server/mod.rs:35-40 | a failed read or 300 s of idleness ends the loop with no reply and no change |
| Server.TcpSessionKeepsTokens | crates/vex-cli/src/bin/vexd/server/mod.rs:21-77 | a whole TCP session, whatever it sends, leaves the token store as it found it |
| Server.RingAppend | crates/vex-cli/src/bin/vexd/server/mod.rs:989-997 | the result is the newest `min(RING_MAX, |buf| + |data|)` bytes of `buf ++ data` |
| Server.Scrollback.Append | crates/vex-cli/src/bin/vexd/server/mod.rs:991-997 | extending then draining leaves the buffer equal to `RingAppend(old buffer, data)` |
| Server.RingTrimsOnlyPastMax | crates/vex-cli/src/bin/vexd/server/mod.rs:1419-1449 | reaching exactly `RING_MAX` trims nothing; going over keeps `RING_MAX` bytes that end with `data` |
| Server.EscapeQuotes | crates/vex-cli/src/bin/vexd/server/mod.rs:1241 | the text grows by three characters per `'`, and a prompt without `'` is left unchanged |
| Server.EscapeQuotesPerChar | crates/vex-cli/src/bin/vexd/server/mod.rs:1241 | escaping works character by character: it distributes over concatenation, `'` becomes the four characters `'\''`, and every other character is kept |
| Server.BuildSendKeysCmd | crates/vex-cli/src/bin/vexd/server/mod.rs:1237-1243 | an empty prompt gives the parts joined by spaces; otherwise the joined parts and a space, followed by text that a POSIX shell reads back as one word that is exactly the prompt |
| Server.EscapedReadsBack | crates/vex-cli/src/bin/vexd/server/mod.rs:1241-1242 | a POSIX shell reads the escaped prompt plus the closing quote back as exactly the prompt |
| LegacyServer.LegacyDaemon.constructor | crates/vexd/src/server/mod.rs:31-36 | the older daemon state holds its token store and a client counter of 0 |
| LegacyServer.LegacyDaemon.Dispatch | crates/vexd/src/server/mod.rs:31-104 | no reply exactly when a local `PairCreate` panics on its expiry, and then the tokens are unchanged; otherwise the reply and the token list are exactly what `LegacyDispatch` gives |
| LegacyServer.LegacyDaemon.HandleConnection | crates/vexd/src/server/mod.rs:10-29 | the replies written, how the loop ended (finished, a failed write, or a panic) and the tokens left are exactly what `LegacyServe` gives |
| LegacyServer.LegacyDispatch | crates/vexd/src/server/mod.rs:31-104 | for a command that does not panic, the token list changes only for a local `PairCreate`, `PairRevoke` or `PairRevokeAll` |
| LegacyServer.LegacyServe | crates/vexd/src/server/mod.rs:10-29 | the loop writes at most one reply per frame it reads, and a panic, which ends the loop with no reply, happens only on a Unix connection |
| LegacyServer.LegacyLocalOnlyOverTcp | crates/vexd/src/server/mod.rs:50-52 | over TCP all four `Pair*` commands answer `LocalOnly` and keep the store as it is |
| LegacyServer.Upgrade | crates/vexd/src/server/mod.rs:37-103 | a command of the older protocol becomes a local-only command of the current one exactly when it is one of the four `Pair*` commands |
| LegacyServer.GenerationsAgree | crates/vexd/src/server/mod.rs:37-103 | on the six commands both daemons share, when neither panics, the two generations give the same reply and the same token list, and the current one leaves the repositories alone |
| LegacyServer.LegacyPairCreateReply | crates/vexd/src/server/mod.rs:53-61 | a local `PairCreate` whose expiry neither overflows nor wraps below now appends the generated token, answers with its id, its plaintext secret and no host, and that secret validates under hex-text comparison |
| LegacyServer.LegacyDeliver | crates/vexd/src/server/mod.rs:20-23 | the commands as the loop receives them, in order |
| LegacyServer.LegacyReplay | crates/vexd/src/server/mod.rs:19-27 | dispatching commands that do not panic one after another, each against the token list the one before left, gives one reply per command |
| LegacyServer.LegacyServeRepliesInOrder | crates/vexd/src/server/mod.rs:19-27 | the loop's replies to a run of commands that do not panic are their dispatch replies in order, and the loop then goes on from the token list they leave |
| LegacyServer.LegacyOneReplyPerCommand | crates/vexd/src/server/mod.rs:19-27 | every command that does not panic gets exactly one reply, in order, each its dispatch reply against the tokens the one before left, and the loop stops without error at the first failed read |
| LegacyServer.LegacyOverflowEndsConnection | crates/vexd/src/server/mod.rs:53-61 | a local `PairCreate` whose expiry overflows panics the connection task: no reply, nothing after it is read, and the tokens are unchanged |
| Tcp.ServeTcpConnection | crates/vex-cli/src/bin/vexd/server/tcp.rs:72-125 | the replies, the outcome and the stores after one TLS connection are exactly what `TcpConnection` gives, and the client counter ends as it started |
| Tcp.TcpConnection | crates/vex-cli/src/bin/vexd/server/tcp.rs:82-125 | a connection is dropped unread exactly when no `AuthToken` frame arrives; it passes authentication exactly when `validate` accepts the token; the first reply is `Pong` exactly when the session ran, and otherwise at most one `Error(Unauthorized)` is written |
| Tcp.CountedSession | crates/vex-cli/src/bin/vexd/server/tcp.rs:114-125 | the session runs with the counter one higher, as a TCP session with the token's id, and the counter is restored afterwards |
| Tcp.RefusedTokenGetsOneUnauthorized | crates/vex-cli/src/bin/vexd/server/tcp.rs:91-99 | a token `validate` refuses gets exactly one `Error(Unauthorized)`, no command runs, and nothing changes |
| Tcp.AcceptedTokenGetsPongFirst | crates/vex-cli/src/bin/vexd/server/tcp.rs:101-120 | an accepted token is answered `Pong` before any command; the commands then run as a TCP session with that token's id, with its `last_seen` stamped and the counter one higher |
| Tcp.TcpConnectionOnlyStampsItsToken | crates/vex-cli/src/bin/vexd/server/tcp.rs:82-125 | a TCP connection changes the token list at most by stamping `last_seen` on the one token that authenticated it |
| Tcp.CertFingerprint | crates/vex-cli/src/bin/vexd/server/tcp.rs:136-145 | no certificate is an error; otherwise the fingerprint is 64 hex digits that decode to the hash of the first certificate's DER bytes |
| Http.BearerCredentials | crates/vex-cli/src/bin/vexd/server/http.rs:72-79 | credentials are found only in a header that is `Bearer ` then an id with no `:`, a `:`, then the secret, with neither part empty; no header, or one without that exact prefix, gives none |
| Http.BearerOfPairing | crates/vex-cli/src/bin/vexd/server/http.rs:74-76 | a header built from a pairing whose id has no `:` yields exactly that id and secret |
| Http.BearerEdgeCases | crates/vex-cli/src/bin/vexd/server/http.rs:73-79 | the prefix is case-sensitive, and a missing `:` or an empty id or secret gives no credentials |
| Http.Authenticate | crates/vex-cli/src/bin/vexd/server/http.rs:72-87 | without credentials nothing is validated and no token changes; with them the result is the id exactly when `validate` accepts, and then only that token is stamped |
| Http.StatusFor | crates/vex-cli/src/bin/vexd/server/http.rs:61-67 | the status is 200 exactly for replies that are not errors, and every error gets one of 401, 403, 404 and 500 |
| Http.HttpCommand | crates/vex-cli/src/bin/vexd/server/http.rs:52-69 | the status sent always agrees with the reply it is sent with |
| Http.RequestAfterAuthentication | crates/vex-cli/src/bin/vexd/server/http.rs:46-69 | a request is its command run on the stores `authenticate` leaves, as the token id that `authenticate` returned |
| Http.HandleCommand | crates/vex-cli/src/bin/vexd/server/http.rs:46-70 | the status, the reply and the stores after one request are exactly what `HttpRequest` gives |
| Http.HttpRequest | crates/vex-cli/src/bin/vexd/server/http.rs:46-70 | the status sent is always the one `StatusFor` gives for the reply, and the token list changes at most by stamping the token that `validate` accepted for the bearer credentials |
| Http.UnauthenticatedGets401 | crates/vex-cli/src/bin/vexd/server/http.rs:52-57 | a request without credentials the store accepts gets 401 with `Error(Unauthorized)`, and nothing is dispatched or changed |
| Http.StatusMapping | crates/vex-cli/src/bin/vexd/server/http.rs:61-67 | Unauthorized gives 401, LocalOnly 403, NotFound 404, any Internal 500, and other replies 200 |
| Http.HttpAdminIsForbidden | crates/vex-cli/src/bin/vexd/server/http.rs:59 | an authenticated HTTP client dispatches as a TCP client, so the admin commands get 403 with `LocalOnly` and change nothing |
| Http.HttpStreamingIsInternalError | crates/vex-cli/src/bin/vexd/server/http.rs:59 | over HTTP nothing intercepts `ShellRegister` and `AttachShell`, so they reach the dispatcher's fallback and get 500 |
| Connect.Fingerprint | crates/vex-cli/src/bin/vex/connect.rs:49 | the client's fingerprint is 64 hex digits that decode to the hash of the certificate's DER bytes |
| Connect.ClientAndDaemonFingerprintsAgree | crates/vex-cli/src/bin/vexd/server/tcp.rs:136-145 | the daemon's `cert_fingerprint` of its first certificate equals the fingerprint the client computes of that certificate |
| Connect.MismatchMessage | crates/vex-cli/src/bin/vex/connect.rs:56-59 | the verifier's refusal always contains "fingerprint mismatch" |
| Connect.TofuVerifier.constructor | crates/vex-cli/src/bin/vex/connect.rs:31-37 | a new verifier holds the pinned fingerprint, if any, and has seen none |
| Connect.TofuVerifier.VerifyServerCert | crates/vex-cli/src/bin/vex/connect.rs:41-63 | every call records the presented fingerprint; the certificate is accepted exactly when nothing is pinned or the pin equals it, and otherwise refused with the mismatch message |
| Connect.ParseHostPort | crates/vex-cli/src/bin/vex/connect.rs:233-242 | without `:` the result is the whole host and port 7422; otherwise the host is everything before the last `:`, and the rest must parse as a `u16`, the only way to fail (with the host in the error) |
| Connect.ParseHostPortOfJoin | crates/vex-cli/src/bin/vex/connect.rs:233-242 | a host followed by `:` and a port in range parses back to both, even when the host itself has colons |
| Connect.EmptyPortRefused | crates/vex-cli/src/bin/vex/connect.rs:235-237 | an empty port after the last `:` is refused |
| Connect.OversizedPortRefused | crates/vex-cli/src/bin/vex/connect.rs:235-237 | port 65536 is refused |
| Connect.OversizedValue | crates/vex-cli/src/bin/vex/connect.rs:235-237 | `"65536"` does not parse as a `u16` |
| Connect.PlusSignedPortAccepted | crates/vex-cli/src/bin/vex/connect.rs:235-237 | as `str::parse::<u16>` does, a port written with a leading `+` is accepted |
| Connect.PlusEightyValue | crates/vex-cli/src/bin/vex/connect.rs:235-237 | `"+80"` parses as the `u16` 80 |
| Connect.TcpConnect | crates/vex-cli/src/bin/vex/connect.rs:152-205 | the result and the credential frames written are exactly what `TcpConnectSpec` gives for how the peer behaves |
| Connect.TcpConnectSpec | crates/vex-cli/src/bin/vex/connect.rs:152-205 | the only frame ever written is the one `AuthToken` with the given id and secret; success needs that frame and a `Pong` reply; a fingerprint is handed back only when none was pinned, and it is the server's |
| Connect.CredentialsOnlyAfterHandshake | crates/vex-cli/src/bin/vex/connect.rs:176-202 | the `AuthToken` frame is written, once, exactly when parsing, connecting, the name check, the fingerprint check and the handshake all succeeded; the connection is established exactly when the daemon then answers `Pong` |
| Connect.MismatchSendsNoCredentials | crates/vex-cli/src/bin/vex/connect.rs:176-193 | a pinned fingerprint that differs from the server's fails the handshake with the mismatch message before any credential is sent |
| Connect.LearnsOnlyOnFirstConnect | crates/vex-cli/src/bin/vex/connect.rs:182-186 | on success a fingerprint is returned for pinning exactly when none was pinned, and it is the server's |
| Connect.AuthReplyDecides | crates/vex-cli/src/bin/vex/connect.rs:195-202 | after a successful handshake, an `Error` reply fails with that error and any other reply but `Pong` fails as unexpected |
| Connect.FromEntry | crates/vex-cli/src/bin/vex/connect.rs:113-146 | the connection, the entry as it is left and the frames written are exactly what `FromEntrySpec` gives |
| Connect.FromEntrySpec | crates/vex-cli/src/bin/vex/connect.rs:113-146 | nothing in the entry but the fingerprint ever changes, and that only on a successful connect with none pinned; credentials are written only for a "tcp" entry, and a success is a TLS stream exactly for one |
| Connect.FromEntryOnlyPins | crates/vex-cli/src/bin/vex/connect.rs:128-134 | the entry is left as it was, except that a missing fingerprint is filled in with the server's after a successful TCP connect; a pinned one is never changed |
| Connect.IncompleteTcpEntryFailsFirst | crates/vex-cli/src/bin/vex/connect.rs:115-127 | a TCP entry missing `tcp_host`, `token_id` or `token_secret` fails with the missing field before any I/O |
| Connect.OtherTransportsAreUnix | crates/vex-cli/src/bin/vex/connect.rs:137-144 | any transport other than "tcp" connects to a Unix socket, `/tmp/vexd.sock` unless the entry names one, and never changes the entry |
| ClientConfig.Config.constructor | crates/vex/src/config.rs:38-46 | a config as loaded holds the default and the connections read |
| ClientConfig.Config.Resolve | crates/vex/src/config.rs:70-82 | the key is the explicit name, else the default; no name and no default is the "No default connection set" error; it succeeds exactly when the key is saved, with the entry saved under it, and otherwise names the unknown key |
| ClientConfig.Config.Upsert | crates/vex/src/config.rs:85-90 | the entry is stored under the name and no other entry changes; the name becomes the default exactly when asked or when there was none; the default stays a saved connection, and the name resolves to the new entry |
| ClientConfig.Config.Remove | crates/vex/src/config.rs:93-100 | true exactly when the name was saved; only that key is deleted; removing the default picks some remaining key, or none when the map is empty; removing another leaves the default alone; the default stays a saved connection |
| ClientConfig.Config.ClearAll | crates/vex/src/config.rs:103-106 | no connections and no default remain |
| Client.RunCmd | crates/vex-cli/src/bin/vex/main.rs:283-317 | the command fails exactly when the daemon sent no reply, and any reply other than the expected status or client info is printed in its debug form |
| Client.WhoamiLine | crates/vex-cli/src/bin/vex/main.rs:307-313 | the local line is printed exactly for a Unix session, and a TCP session with a token prints that token's id after the 24-character label |
| Client.StatusLine | crates/vex-cli/src/bin/vex/main.rs:292-295 | the status line starts with `vexd v` and the daemon's version, so the version can be read back |
| Client.WhoamiReportsDaemonSession | crates/vex-cli/src/bin/vex/main.rs:302-317 | the whoami line says "local (admin via Unix socket)" exactly for a Unix session, "authenticated as token: <id>" for a TCP session with a token and "unauthenticated TCP connection" otherwise |
| Client.WhoamiDistinguishesTokens | crates/vex-cli/src/bin/vex/main.rs:309-310 | two different token ids are printed as two different whoami lines |
| Client.Insert | crates/vex-cli/src/bin/vex/main.rs:220-221 | inserting a new name into a strictly sorted list keeps it strictly sorted, adds one element and adds exactly that name |
| Client.SortedNames | crates/vex-cli/src/bin/vex/main.rs:220-221 | the collected and sorted keys are strictly ascending and are exactly the saved connection names |
| Client.SelectTargets | crates/vex-cli/src/bin/vex/main.rs:208-224 | the selection is an unknown-name error exactly when the named connection is not saved, empty exactly when nothing is saved and no name is given, the single name when it is saved, and every saved name in ascending order otherwise |
| Client.RunTask | crates/vex-cli/src/bin/vex/main.rs:233-246 | a task reports a fingerprint only when its entry had none and `from_entry` pinned the peer's, the reported fingerprint is the one `from_entry` wrote into its copy, and the task fails exactly when connecting failed or the command got no reply |
| Client.Tasks | crates/vex-cli/src/bin/vex/main.rs:227-247 | one report per target, in the targets' order, each carrying its target's name |
| Client.WriteBack | crates/vex-cli/src/bin/vex/main.rs:259-264 | writing one report back keeps the set of saved names and changes no entry but the report's own |
| Client.Merged | crates/vex-cli/src/bin/vex/main.rs:258-272 | merging every report keeps the set of saved names |
| Client.MergeResults | crates/vex-cli/src/bin/vex/main.rs:256-272 | the merge loop leaves the connections as `Merged` says and the default untouched, notes a change exactly when some report carried a fingerprint for a saved name, and an error exactly when some report failed |
| Client.TasksIgnoreOtherEntries | crates/vex-cli/src/bin/vex/main.rs:227-230 | the tasks depend only on the entries of the targeted names |
| Client.MergeMatchesFromEntry | crates/vex-cli/src/bin/vex/main.rs:226-272 | for distinct saved targets, the merged configuration is what running `from_entry` on each targeted entry in place would leave, and every other entry is unchanged |
| Client.RunTargets | crates/vex-cli/src/bin/vex/main.rs:226-280 | the fan-out makes one report per target from the entries as loaded, leaves each targeted entry as `from_entry` leaves it and the rest untouched, saves exactly when a fingerprint was learned, and succeeds exactly when every target succeeded and any needed save did |
| Client.CmdWithConnections | crates/vex-cli/src/bin/vex/main.rs:204-281 | an unknown name fails with its message before connecting, an empty configuration succeeds without connecting, and otherwise the fan-out runs over the single name or over every saved name in ascending order |
| Client.CmdConnect | crates/vex-cli/src/bin/vex/main.rs:96-151 | the local daemon is saved as a Unix entry only when its socket is reachable, sends no credentials, and an unreachable socket reports its path and the OS error; a pairing line without `':'` is refused before connecting; a TCP entry with the pinned fingerprint is saved only after the authenticated handshake succeeded; and the command succeeds only when the save did |
| Client.SavedEntryPinsServer | crates/vex-cli/src/bin/vex/main.rs:129-145 | the entry `vex connect` saves reconnects to the same certificate without changing and succeeds exactly on a Pong, and any other certificate is refused before credentials are sent |
| Client.CmdDisconnect | crates/vex-cli/src/bin/vex/main.rs:153-170 | `--all` removes every connection and the default and reports their number; `-c name` removes that connection and fails for an unknown name; neither flag is a usage error |
| LegacyClient.CmdUse | crates/vex/src/main.rs:182-191 | an unknown name fails with its message and leaves the default; a saved name becomes the default and the command succeeds exactly when the save does; the connections never change |
| LegacyClient.CmdDisconnect | crates/vex/src/main.rs:159-180 | `--all` clears every connection and the default; otherwise the named connection, or else the default, is removed, an unknown one is only reported, and having neither is an error |
| LegacyClient.SavedNames | crates/vex/src/main.rs:231 | the collected keys are exactly the saved names, each once |
| LegacyClient.Visit | crates/vex/src/main.rs:233-252 | one step of the `--all` loop puts the entry `from_entry` left back under its own name, changes nothing else, and reports what the current client's task reports for the same connection |
| LegacyClient.VisitStep | crates/vex/src/main.rs:233-252 | a step whose outcome is named beforehand leaves exactly that entry and that report |
| LegacyClient.PinStep | crates/vex/src/main.rs:233-234 | updating the current name in place keeps every already visited entry and every entry still to visit |
| LegacyClient.FlagsPrefix | crates/vex/src/main.rs:239-250 | one more report sets the learned flag exactly when it learned a fingerprint and the error flag exactly when it failed |
| LegacyClient.VisitAll | crates/vex/src/main.rs:233-252 | after the loop every saved entry is the one `from_entry` left, the set of names and the default are unchanged, and the flags say whether some report learned a fingerprint and whether some failed |
| LegacyClient.CmdWithAll | crates/vex/src/main.rs:230-258 | `--all` leaves every entry as `from_entry` leaves it, saves exactly when some fingerprint was learned and the write succeeds, and succeeds exactly when every connection did and any needed save did |
| LegacyClient.CmdWithOne | crates/vex/src/main.rs:259-276 | an unresolvable target fails with the resolver's message and changes nothing; otherwise the entry is updated in place and saved exactly when its fingerprint changed, a failed save fails the command with `SaveFailed`, a connect failure aborts with the entry unchanged, and otherwise the outcome is the shared runner's |
| RepoStore.GenId | crates/vex-cli/src/bin/vexd/repo_store.rs:17-22 | the id is the prefix, `_` and six lower-case hex digits |
| RepoStore.GenIdInjective | crates/vex-cli/src/bin/vexd/repo_store.rs:229-232 | different random bytes give different ids under one prefix |
| RepoStore.NextAgentId | crates/vex-cli/src/bin/vexd/repo_store.rs:24-27 | the id is `agent_` followed by digits whose value is the number of agents plus one, nine characters long below 999 agents |
| RepoStore.NextAgentIdFirst | crates/vex-cli/src/bin/vexd/repo_store.rs:235-236 | the first agent id is `agent_001` |
| RepoStore.FindByPath | crates/vex-cli/src/bin/vexd/repo_store.rs:63-65 | nothing is found exactly when no repository has the path, and what is found is one of the repositories |
| RepoStore.FindById | crates/vex-cli/src/bin/vexd/repo_store.rs:67-73 | nothing is found exactly when no repository has the id, and what is found is one of the repositories |
| RepoStore.WsIndices | crates/vex-cli/src/bin/vexd/repo_store.rs:76-85 | no indices exactly when no workstream has the id; otherwise the indices name a workstream with the id and no earlier one, repository by repository, has it |
| RepoStore.AgentIndices | crates/vex-cli/src/bin/vexd/repo_store.rs:88-99 | no indices exactly when no agent has the id; otherwise the indices name an agent with the id and no agent earlier in nesting order has it |
| RepoStore.ShellIndices | crates/vex-cli/src/bin/vexd/repo_store.rs:102-113 | no indices exactly when no shell has the id; otherwise the indices name a shell with the id and no shell earlier in nesting order has it |
| RepoStore.GetWorkstream | crates/vex-cli/src/bin/vexd/repo_store.rs:116-119 | the snapshot exists exactly when `ws_indices` finds the id, and it is the workstream at those indices |
| RepoStore.WithWorkstream | crates/vex-cli/src/bin/vexd/repo_store.rs:124 | replacing one workstream in place keeps every other repository and workstream and every other field of its repository |
| RepoStore.RefreshedStatus | crates/vex-cli/src/bin/vexd/repo_store.rs:125-132 | a Stopped workstream stays Stopped; any other becomes Running exactly when some agent runs and Idle exactly when none does |
| RepoStore.RepoStore.constructor | crates/vex-cli/src/bin/vexd/repo_store.rs:38-50 | the store holds the repositories read from disk |
| RepoStore.RepoStore.RefreshWsStatus | crates/vex-cli/src/bin/vexd/repo_store.rs:122-134 | an unknown id changes nothing; otherwise only the found workstream's status is replaced by its refreshed status |
| RepoStore.RefreshTouchesOnlyStatus | crates/vex-cli/src/bin/vexd/repo_store.rs:122-134 | refreshing keeps the workstream's agents, shells and id, and leaves a Stopped workstream's repositories unchanged |
| RepoStore.ExitRunning | crates/vex-cli/src/bin/vexd/repo_store.rs:151-156 | every agent of a dead session is mapped on its own, Running ones to Exited at the given time |
| RepoStore.RunningTriples | crates/vex-cli/src/bin/vexd/repo_store.rs:158-167 | the restart list has at most one entry per agent, each for this workstream, and is empty exactly when no agent runs |
| RepoStore.RunningTriplesMembers | crates/vex-cli/src/bin/vexd/repo_store.rs:158-167 | a triple is listed exactly when it is `(ws_id, agent id, tmux_window)` of some Running agent |
| RepoStore.RunningTriplesAppend | crates/vex-cli/src/bin/vexd/repo_store.rs:158-167 | listing a concatenation of agents lists each part in turn, so the triples follow the agents' order |
| RepoStore.ReconcileWss | crates/vex-cli/src/bin/vexd/repo_store.rs:145-169 | reconciling a repository's workstreams treats each workstream on its own, in place |
| RepoStore.ReconcileRepos | crates/vex-cli/src/bin/vexd/repo_store.rs:144-170 | reconciling treats each repository on its own, in place |
| RepoStore.ExitAgents | crates/vex-cli/src/bin/vexd/repo_store.rs:151-156 | the loop over a dead session's agents computes `ExitRunning` |
| RepoStore.CollectRunning | crates/vex-cli/src/bin/vexd/repo_store.rs:159-167 | the loop over a live session's agents collects `RunningTriples` in order |
| RepoStore.ReconcileWorkstreams | crates/vex-cli/src/bin/vexd/repo_store.rs:145-169 | the inner loop yields the reconciled workstreams and their restart lists in order |
| RepoStore.RepoStore.Reconcile | crates/vex-cli/src/bin/vexd/repo_store.rs:139-172 | the store's repositories become `ReconcileRepos` of the old ones, and the result is every live workstream's running agents in order |
| RepoStore.ReconciledDeadAreStopped | crates/vex-cli/src/bin/vexd/repo_store.rs:149-156 | after reconciling, a workstream whose session is gone is Stopped, and if it was not Stopped before none of its agents is Running |
| RepoStore.ReconcileKeepsLiveAndStopped | crates/vex-cli/src/bin/vexd/repo_store.rs:146-149 | a workstream with a live session, or already Stopped, comes through reconciling unchanged |
| RepoStore.ReconcileIdempotent | crates/vex-cli/src/bin/vexd/repo_store.rs:136-172 | a second reconcile against the same live sessions changes nothing, at any later time |
| RepoStore.NoSurvivorsWithoutRunning | crates/vex-cli/src/bin/vexd/repo_store.rs:159-167 | a workstream without a Running agent adds nothing to the restart list |
| Search.FirstIndex | crates/vex-cli/src/bin/vexd/repo_store.rs:63-73 | nothing is found exactly when no element satisfies the test; otherwise the index is the first that does |
| Search.FirstIn2 | crates/vex-cli/src/bin/vexd/repo_store.rs:76-85 | nothing is found exactly when no element of any row satisfies the test; otherwise the pair is the first that does in row-major order |
| Search.FirstIn3 | crates/vex-cli/src/bin/vexd/repo_store.rs:88-113 | nothing is found exactly when no element satisfies the test; otherwise the triple is the first that does in row-major order |
| TuiApp.Row | crates/vex-cli/src/bin/vex/tui/app.rs:105 | one repository's positions are `(ri, 0)` up to `(ri, n - 1)` in order |
| TuiApp.PositionsFromSpec | crates/vex-cli/src/bin/vex/tui/app.rs:101-107 | the positions of a suffix of the repositories are as many as its workstreams, all valid, strictly increasing in repository-major order, and include every workstream of the suffix |
| TuiApp.PositionsSpec | crates/vex-cli/src/bin/vex/tui/app.rs:100-111 | the flat list has one valid, distinct position per workstream in repository-major order and contains every workstream, so its length is the total |
| TuiApp.CountRunning | crates/vex-cli/src/bin/vex/tui/app.rs:187-192 | the running count is at most the number of agents |
| TuiApp.CountRunningZero | crates/vex-cli/src/bin/vex/tui/app.rs:187-192 | the count is zero exactly when no agent is Running |
| TuiApp.CountRunningAppend | crates/vex-cli/src/bin/vex/tui/app.rs:172-173 | counting over two lists of agents adds their counts |
| TuiApp.WsAgentsCount | crates/vex-cli/src/bin/vex/tui/app.rs:171-173 | the running agents of a list of workstreams are the sum of their per-workstream counts |
| TuiApp.TotalIsSumOfCounts | crates/vex-cli/src/bin/vex/tui/app.rs:167-174 | the total number of running agents is the sum of the counts the dashboard shows per workstream |
| TuiApp.StatusText | crates/vex-cli/src/bin/vex/tui/app.rs:179-185 | each status has its own label: "Running", "Idle" or "Stopped" exactly for that status |
| TuiApp.FormatAgo | crates/vex-cli/src/bin/vex/tui/app.rs:194-207 | the text always ends in " ago", and a timestamp not in the past reads "0s ago" |
| TuiApp.FormatAgoSpec | crates/vex-cli/src/bin/vex/tui/app.rs:194-207 | the text is a decimal number, a unit and " ago"; the unit is s below a minute, m below an hour and h otherwise, the number is the elapsed time in that unit rounded down, and a future timestamp reads "0s ago" |
| TuiApp.App.constructor | crates/vex-cli/src/bin/vex/tui/app.rs:83-96 | a new dashboard has no repositories and selects index 0 |
| TuiApp.App.MoveUp | crates/vex-cli/src/bin/vex/tui/app.rs:113-117 | the selection moves back by one and stops at 0; the snapshot is unchanged and the selection stays in bounds |
| TuiApp.App.MoveDown | crates/vex-cli/src/bin/vex/tui/app.rs:119-124 | the selection moves on by one while below the last workstream; the snapshot is unchanged and the selection stays in bounds |
| TuiApp.App.Selected | crates/vex-cli/src/bin/vex/tui/app.rs:126-130 | a position is selected exactly when the index is below the total, and it names a workstream of the snapshot |
| TuiApp.App.SelectedWorkstream | crates/vex-cli/src/bin/vex/tui/app.rs:133-134 | the selected workstream is the one at the selected position |
| TuiApp.App.SelectedWsId | crates/vex-cli/src/bin/vex/tui/app.rs:132-135 | the id exists exactly when a position is selected and is that workstream's id |
| TuiApp.App.SelectedTmuxSession | crates/vex-cli/src/bin/vex/tui/app.rs:137-140 | the session exists exactly when a position is selected and is that workstream's tmux session |
| TuiApp.App.SelectedFirstShellId | crates/vex-cli/src/bin/vex/tui/app.rs:142-150 | without a selection there is no shell; otherwise the id is absent exactly when every shell has exited, and it is the first shell that has not |
| TuiApp.App.UpdateRepos | crates/vex-cli/src/bin/vex/tui/app.rs:154-164 | the snapshot is replaced, the selection becomes 0 when there are no workstreams and is otherwise pulled back onto the last one if it fell off the end, so a workstream is selected whenever one exists |
| RepoMeta.AnyBranch | src/repo.rs:46 | the test is true exactly when some entry is for the branch |
| RepoMeta.Without | src/repo.rs:55-57 | dropping entries never lengthens the list |
| RepoMeta.Added | src/repo.rs:45-53 | after adding, the branch is listed; the old entries are kept in front, in order, with at most one entry more; an already listed branch changes nothing |
| RepoMeta.WithoutAppend | src/repo.rs:55-57 | `retain` distributes over concatenation, so the kept entries stay in their order |
| RepoMeta.WithoutMembers | src/repo.rs:55-57 | the kept entries are exactly those for other branches |
| RepoMeta.WithoutAbsent | src/repo.rs:55-57 | removing a branch that is not listed leaves the list as it was |
| RepoMeta.AddedIdempotent | src/repo.rs:45-53 | adding the same branch a second time changes nothing, whatever PR number or time it carries |
| RepoMeta.AddedSpec | src/repo.rs:45-53 | after adding, the branch is listed; a branch not listed before gets one new entry at the end with the given time and PR number; one entry per branch is kept |
| RepoMeta.WithoutSpec | src/repo.rs:55-57 | after removing, the branch is not listed, and one entry per branch is kept |
| RepoMeta.WithoutKeepsOthers | src/repo.rs:55-57 | removing a branch keeps every other branch listed exactly when it was |
| RepoMeta.RepoMetadata.constructor | src/repo.rs:10-17 | the metadata holds the given name, path, default branch and entries |
| RepoMeta.RepoMetadata.HasWorkstream | src/repo.rs:59-61 | true exactly when some entry is for the branch |
| RepoMeta.RepoMetadata.AddWorkstream | src/repo.rs:45-53 | the entries become `Added` of the old ones, nothing else changes, the branch is then listed and one entry per branch is kept |
| RepoMeta.RepoMetadata.RemoveWorkstream | src/repo.rs:55-57 | the entries become the old ones without the branch, in order, nothing else changes, the branch is then unlisted and one entry per branch is kept |
| RepoMeta.WorktreeRepoName | src/repo.rs:107-123 | a missing current directory is a configuration error carrying its reason; an error from `worktrees_dir` (no home directory) is passed on; a directory outside the worktrees directory, or a worktrees directory that is not UTF-8, is "not a git repository"; a found name is non-empty, has no `/` and is the first segment after the worktrees directory and its slashes |
| RepoMeta.WorktreeRepoNameOf | src/repo.rs:112-120 | conversely, the worktrees directory, slashes, a non-empty name without `/`, then nothing or a `/` and more, resolves to that name |
| RepoMeta.LocatesSegment | src/repo.rs:113-116 | the name taken from the stripped, slash-trimmed suffix sits where `Locates` says |
| RepoMeta.TrimLeadingSlashes | src/repo.rs:115 | trimming leading `/` removes exactly the leading run of slashes |
| RepoMeta.FirstSegmentOf | src/repo.rs:116 | the first `/`-separated segment of a text that starts with a name without `/` and then ends or has a `/` is that name |
| RepoMeta.SiblingDirectoryResolves | src/repo.rs:112-118 | a sibling directory `/h/.vex/worktrees-old/x` of the worktrees directory `/h/.vex/worktrees` resolves to a repository named `-old` |
| RepoMeta.WorktreeRepoNameByComponent | src/repo.rs:106-123 | the lookup as its doc comment describes it: a name is found only when the worktrees directory is a whole leading component of the current directory, and it is then the name the code finds |
| RepoMeta.ByComponentSpec | src/repo.rs:106-123 | a directory `<worktrees>/<name>…` still resolves to its name, and the sibling directory no longer resolves |
| BackgroundWorker.Key | src/worker.rs:65-77 | every request but `Shutdown` has a category, and no other request lacks one |
| BackgroundWorker.ResponseKey | src/worker.rs:79-90 | each kind of response has a category of its own, the one of the request it answers, and no other kind shares it |
| BackgroundWorker.EntryItems | src/worker.rs:157-169 | one item per entry of a repository, in order |
| BackgroundWorker.ItemsSpec | src/worker.rs:151-172 | each refreshed item names its tmux session by `session_name` and is active exactly when tmux lists that session, with one item per registered workstream |
| BackgroundWorker.RefreshItems | src/worker.rs:155-170 | the refresh's nested loops build exactly `Items` of the repositories and the live sessions |
| BackgroundWorker.AppendEntryItems | src/worker.rs:156-168 | the inner loop appends one item per entry of the repository, in order, each `Item` of that entry |
| BackgroundWorker.PathEntries | src/worker.rs:186-190 | a failed lookup adds no entries; otherwise each open PR adds one entry keyed `<path>/<branch>` with its number, in order |
| BackgroundWorker.PrEntriesSnoc | src/worker.rs:185-191 | one more path extends the cache by exactly that path's entries |
| BackgroundWorker.LoadEntries | src/worker.rs:183-193 | the PR-cache loops build exactly `PrEntries` of the paths |
| BackgroundWorker.AppendPathEntries | src/worker.rs:187-189 | the inner loop appends one `(<path>/<branch>, number)` entry per open PR of the path, in order |
| BackgroundWorker.Answer | src/worker.rs:148-241 | the response to a request has that request's category |
| BackgroundWorker.Handle | src/worker.rs:148-241 | each arm of the loop's `match` answers the request as `Answer` says |
| BackgroundWorker.WorkerLoop | src/worker.rs:146-243 | the worker answers requests in order, one response each and each of the request's category, and stops exactly at the first `Shutdown` or at the end of the channel |
| BackgroundWorker.KeysOf | src/worker.rs:128-134 | the categories of a list of responses are exactly those some response has |
| BackgroundWorker.KeysOfSnoc | src/worker.rs:130-133 | one more response adds exactly its own category |
| BackgroundWorker.SendStepSpec | src/worker.rs:114-125 | `Shutdown` is never refused; a second request of a category in flight is refused whatever its parameters; after the responses are drained, a request goes out exactly when its category is no longer in flight |
| BackgroundWorker.SendKeepsTracks | src/worker.rs:116-125 | if the in-flight set is exactly the categories queued, each at most once, it stays so after `send`, whether the request is refused or not |
| BackgroundWorker.StepKeepsTracks | src/worker.rs:146-243 | the worker answering a request moves its category from the request queue to the response queue, so the in-flight set stays exactly the categories queued |
| BackgroundWorker.DrainKeepsTracks | src/worker.rs:128-134 | draining the responses clears exactly their categories, leaving the in-flight set exactly the categories of the requests still queued |
| BackgroundWorker.Worker.constructor | src/worker.rs:100-112 | a spawned worker has empty channels and nothing in flight |
| BackgroundWorker.Worker.Send | src/worker.rs:114-125 | the request is queued and its category recorded exactly when it is not refused; the responses are untouched |
| BackgroundWorker.Worker.TryRecvAll | src/worker.rs:127-135 | every pending response is returned in arrival order, the channel is emptied and their categories leave the in-flight set |
| BackgroundWorker.Worker.Step | src/worker.rs:146-243 | one turn of the worker thread takes the oldest request; a `Shutdown` ends the loop, any other request queues its `Answer` at the end of the responses; with no request nothing changes, and the in-flight set is never touched |
| BackgroundWorker.Worker.Shutdown | src/worker.rs:137-143 | `Shutdown` is queued without touching the in-flight set |
| Tmux.ReplaceCharsPointwise | src/tmux.rs:19-22 | replacing characters one for one keeps the length and maps each character on its own |
| Tmux.SessionName | src/tmux.rs:19-22 | the name is as long as `vex_<repo>_<branch>` and contains no `.`, `/` or `:` |
| Tmux.SessionNameSpec | src/tmux.rs:19-22 | the session name is `vex_<repo>_<branch>` of the same length with each `.`, `/` and `:` turned into `-`, so it contains none of them and starts with `vex_` |
| Tmux.SessionNamePlain | src/tmux.rs:19-22 | names already free of `.`, `/` and `:` are used unchanged |
| Tmux.HookPrefix | src/tmux.rs:33-40 | no hooks give exactly the empty prefix, and any hooks give a prefix that ends with ` && ` |
| Tmux.HookPrefixCons | src/tmux.rs:33-39 | the prefix is each hook followed by ` && `, in order: one more hook in front puts it and ` && ` before the rest |
| Tmux.WindowCommand | src/tmux.rs:42-49 | a window's start-up command is the hook prefix followed by its own command, and is empty only when both are |
| Tmux.Keys | src/tmux.rs:96-110 | nothing is typed into a window exactly when its start-up command is empty; otherwise that command is sent followed by Enter |
| Tmux.LaterWindowsSnoc | src/tmux.rs:85-111 | one more later window adds its `new-window` call and its keys at the end |
| Tmux.RunTmux | src/tmux.rs:6-17 | the call succeeds exactly when tmux does, with tmux's trimmed stdout, and a failure carries tmux's trimmed stderr |
| Tmux.RunEach | src/tmux.rs:51-111 | the calls run in order: on success every call was issued and succeeded; on failure the calls issued are a prefix of the plan ending at the first failure, whose stderr is reported |
| Tmux.CreateSession | src/tmux.rs:28-119 | no windows is a configuration error with no call made; otherwise the planned calls run in order until one fails, and on success the first window is then selected |
| Tmux.VexSessions | src/tmux.rs:151-160 | the kept lines are exactly the listed lines starting with `vex_` |
| Tmux.VexSessionsAppend | src/tmux.rs:151-160 | the filter keeps the listed order |
| Tmux.ListSessions | src/tmux.rs:151-160 | a failing tmux lists no sessions; otherwise the result is exactly the lines of tmux's trimmed output that start with `vex_`, in order |
| Tmux.SessionNameListed | src/tmux.rs:19-22 | every name `session_name` makes passes the `list_sessions` filter |
| Strings.StripPrefix | src/repo.rs:113 | a remainder exists exactly when the text starts with the prefix, and the prefix followed by it is the text |
| Strings.SplitOnce | crates/vex-cli/src/bin/vex/main.rs:125 | a split exists exactly when the separator occurs, it is taken at the first occurrence, and the parts with the separator between them are the text |
| Strings.RSplitOnce | crates/vex-cli/src/bin/vex/connect.rs:234 | a split exists exactly when the separator occurs, it is taken at the last occurrence, and the parts with the separator between them are the text |
| Strings.SplitOnceOfJoin | crates/vex-cli/src/bin/vex/main.rs:125 | splitting `a`, the separator and `b` at the first separator gives back `a` and `b` when `a` has none |
| Strings.RSplitOnceOfJoin | crates/vex-cli/src/bin/vex/connect.rs:234 | splitting `a`, the separator and `b` at the last separator gives back `a` and `b` when `b` has none |
| Strings.FirstSegment | src/repo.rs:116 | the first segment is a prefix without `/`, followed in the text by a `/` or by nothing |
| Strings.TrimStartChar | src/repo.rs:115 | the result is a suffix of the text, does not start with the character, and everything dropped is that character |
| Strings.Trim | crates/vex-cli/src/bin/vex/main.rs:123 | the result is the part of the text that starts right after its leading whitespace and is followed only by whitespace; a non-empty result neither starts nor ends with whitespace |
| Strings.LeadingWhitespace | crates/vex-cli/src/bin/vex/main.rs:123 | the count is the length of the leading run of whitespace: everything before it is whitespace and the character at it, if any, is not |
| Strings.Lines | src/tmux.rs:154 | no listed line contains a newline |
| Strings.Join | src/tmux.rs:37 | joining nothing gives "" and joining one part gives that part |
| Strings.ReplaceChars | src/tmux.rs:21 | each replaced character changes the length by the replacement's length less one, and a replacement free of the targets leaves none of them |
| Strings.ReplaceCharsAppend | src/tmux.rs:21 | replacing distributes over concatenation, so each character is replaced on its own and in place |
| Strings.ReplaceCharsNone | src/tmux.rs:21 | a text with none of the targets is left unchanged |
| Strings.NatToString | crates/vex-cli/src/bin/vex/tui/app.rs:201-205 | the decimal text is non-empty digits without a leading zero whose value is the number |
| Strings.ZeroPad | crates/vex-cli/src/bin/vexd/repo_store.rs:26 | zero padding gives at least the requested width, only digits, and the same value |
| Strings.ParseU16 | crates/vex-cli/src/bin/vex/connect.rs:236 | a parsed port is at most 65535 |
| Strings.ParseU16OfNat | crates/vex-cli/src/bin/vex/connect.rs:236 | every number up to 65535, written in decimal, parses back to itself |
| Strings.BelowIrreflexive | crates/vex-cli/src/bin/vex/main.rs:221 | no name sorts before itself |
| Strings.BelowTransitive | crates/vex-cli/src/bin/vex/main.rs:221 | the string order is transitive |
| Strings.BelowTotal | crates/vex-cli/src/bin/vex/main.rs:221 | of two different names one sorts before the other |

## Left out

- Cryptography and TLS: blake3 is an arbitrary function value; the constant-time comparison is plain equality; certificate generation and loading and the rustls plumbing beyond the verifier's accept/reject decision are foreign libraries.
- Randomness and the clock: `OsRng` bytes, `Utc::now`, `SystemTime` and `Instant` are parameters of the operations that use them. Where the code reads the clock several times in one operation, the readings are collapsed into one `now`: `generate` reads `Utc::now()` once for `expires_at` and again for `created_at` (crates/vex-cli/src/bin/vexd/auth/mod.rs:86, 92), and `reconcile` calls `unix_ts()` once per exited agent (crates/vex-cli/src/bin/vexd/repo_store.rs:154).
- chrono is not part of this model. The range of `chrono::Duration::seconds` (at most i64::MAX/1000 seconds either way) and of `DateTime<Utc>` (years −262143 to 262142, instants −8334601228800 to 8210266876799) are the bounds of chrono 0.4.38 and later, written into `Auth.ExpiryOf` as constants.
- A panic in a connection task (an overflowing `PairCreate` expiry) is modelled as that connection ending with no reply. The other connections and the stores go on as before, because the locks are tokio's, which a panic does not poison.
- Serialisation and persistence: JSON/TOML/YAML codecs are function values assumed only to round-trip where a lemma needs it; `load`/`save`, file permissions and atomic renames are reduced to a `saveOk` flag or to the loaded value.
- Concurrency: the tokio accept loops, `tokio::spawn`, `select!`, the `Mutex` locks and the order in which `JoinSet` tasks finish are not modelled; the client's tasks are independent and are run one after another, which the name sort makes equivalent.
- Tcp.ServeTcpConnection: does not model that `validate` runs under the token-store lock and that the lock is released before the reply is sent, because locks are not modelled.
- The worker thread and its mpsc channels are queues held by the handle, and `Worker.Step` is one turn of the thread; when the thread runs relative to the handle's calls, joining it in `shutdown` and a send to an exited worker are not modelled.
- Shell-outs: git, gh and tmux are function values; `attach`, `kill_session` and `session_exists` (src/tmux.rs:24-26, 121-149), and the workstream, agent and shell handlers of the daemon that shell out, answer with a reply taken from the command's environment and their store effects are not modelled.
- `init_repo`, the git branch of `resolve_repo` and `list_repos` (src/repo.rs:64-104, 125-143) read git and the filesystem; only the worktree-path string logic of `resolve_repo_from_worktree_path` is modelled, and loading the metadata it names is not.
- PTY streaming: the streaming shell handlers are not modelled beyond the `LocalOnly` refusal over TCP; only `ring_append` is.
- The dashboard's input modes, typed text and status line only drive the event loop and are not fields of `TuiApp.App`.
- Printed output: the `[name]` labels, the "No connections" message and the other lines the clients print are not modelled; the results they would print are returned in order.
- BackgroundWorker.Answer: `FetchPrStructured` does not model the JSON built from the PR view and checks nor its serialisation error (src/worker.rs:200-224), because `serde_json` is a foreign library; the fetched view is an opaque string.
- `last_accessed_at` is read by the worker's refresh (src/worker.rs:166) but is not a field of `WorkstreamEntry` in src/repo.rs:19-25; the model follows src/repo.rs and leaves it out.
- `tmux::capture_pane_text`, called by the worker (src/worker.rs:175), is not defined in src/tmux.rs; it is the `capture` function value of the worker's world.
- Each request the worker handles sees one fixed outside world (`world(i)`); changes in git or tmux during a single request are not modelled.
- crates/vex-cli/src/bin/vex/config.rs (loaded by `mod config;` at crates/vex-cli/src/bin/vex/main.rs:3) is not part of this model. The current client calls a two-argument `upsert` defined there. The model uses the `Config` of crates/vex/src/config.rs with `set_default` false instead, so there the first saved connection still becomes the default.
- crates/vex/src/connect.rs (loaded by `mod connect;` at crates/vex/src/main.rs:2) is not part of this model. The older client's `Connection::from_entry` is taken to behave as the current one, so `LegacyClient` uses `Connect.FromEntry`.
- Hex.HexToBytes: works on characters, not UTF-8 bytes, so it does not model the panic Rust's byte slicing raises on non-ASCII input (crates/vex-cli/src/bin/vexd/auth/mod.rs:8-20).
- Strings.ParseU16: states only the range of a parsed value, with `Strings.ParseU16OfNat` as its partner; Rust's error kinds are one `None`.
- The daemon's idle timeout is an `IdleTimeout` event in the connection's input, not a 300-second clock.

## Findings

| source | as written | input that shows it | evidently intended | confidence | as-written member | corrected member |
|---|---|---|---|---|---|---|
| src/repo.rs:112-118 | the current directory is matched against the worktrees directory with a text prefix test, so any directory whose name merely starts with it passes | current directory `/h/.vex/worktrees-old/x` with worktrees directory `/h/.vex/worktrees` resolves to a repository named `-old` | per the doc comment at src/repo.rs:106, only directories inside `<worktrees>/<repo>/` resolve: the worktrees directory must be a whole leading path component | not executed | RepoMeta.SiblingDirectoryResolves | RepoMeta.ByComponentSpec |
