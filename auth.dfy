/**
 * The daemon's token store (`TokenStore` in both daemon generations).
 *
 * A token is an id, the hex of the blake3 hash of its 32 secret bytes, and
 * time stamps; the plaintext secret is returned once by `generate` and never
 * stored. The hash is the store's `hash` function value. The two generations
 * differ only in how `validate` compares hashes, which `compare` selects:
 * the current daemon decodes the stored hex and compares the 32 bytes, the
 * older daemon compares the hex text of the presented hash with the stored
 * text. Randomness, the clock and the outcome of writing `tokens.json` are
 * parameters of the operations that use them.
 */
module Auth {
  import opened Wrappers
  import opened Hex
  import opened Strings
  import opened Proto

  datatype Token = Token(
    tokenId: string,
    tokenSecretHash: string,
    tokenLabel: Option<string>,
    createdAt: Timestamp,
    expiresAt: Option<Timestamp>,
    lastSeen: Option<Timestamp>)

  /** The 3 random bytes a token id is made from. */
  type IdBytes = s: seq<byte> | |s| == 3 witness [0, 0, 0]

  /** The 32 random bytes of a token secret. */
  type SecretBytes = s: seq<byte> | |s| == 32 witness seq(32, _ => 0)

  /** How `validate` compares the presented hash with the stored one. */
  datatype HashCompare =
      /** current daemon: the stored hex must decode to exactly 32 bytes equal to the digest */
    | DecodedBytes
      /** older daemon: the stored text must equal the hex of the digest */
    | HexText

  // ------------------------------------------------------------ lookups

  /** `iter().find(|t| t.token_id == id)`, as an index. */
  function FirstWithId(tokens: seq<Token>, id: string): (r: Option<nat>)
    ensures r.None? <==> forall j :: 0 <= j < |tokens| ==> tokens[j].tokenId != id
    ensures r.Some? ==> r.value < |tokens| && tokens[r.value].tokenId == id
                        && forall j :: 0 <= j < r.value ==> tokens[j].tokenId != id
  {
    if |tokens| == 0 then None
    else if tokens[0].tokenId == id then Some(0)
    else
      match FirstWithId(tokens[1..], id)
      case None => None
      case Some(i) => Some(i + 1)
  }

  predicate HasId(tokens: seq<Token>, id: string) {
    exists j :: 0 <= j < |tokens| && tokens[j].tokenId == id
  }

  /** Expiry is strict: a token is expired only once `now` is past `expires_at`. */
  predicate Expired(t: Token, now: Timestamp) {
    t.expiresAt.Some? && now > t.expiresAt.value
  }

  predicate HashMatches(compare: HashCompare, stored: string, presented: Digest) {
    match compare
    case DecodedBytes =>
      var d := HexToBytes(stored);
      d.Success? && |d.value| == 32 && d.value == presented
    case HexText => stored == BytesToHex(presented)
  }

  /**
   * The index whose token `validate` accepts, if any: the secret must be hex,
   * the FIRST token with the id must be unexpired and its hash must match.
   */
  function AcceptedIndex(tokens: seq<Token>, compare: HashCompare, hash: seq<byte> -> Digest,
                         id: string, secret: string, now: Timestamp): (r: Option<nat>)
    ensures r.Some? ==> r.value < |tokens| && r == FirstWithId(tokens, id)
                        && tokens[r.value].tokenId == id && !Expired(tokens[r.value], now)
    ensures r.Some? ==> HexToBytes(secret).Success?
                        && HashMatches(compare, tokens[r.value].tokenSecretHash,
                                       hash(HexToBytes(secret).value))
  {
    var decoded := HexToBytes(secret);
    if decoded.Failure? then None
    else
      match FirstWithId(tokens, id)
      case None => None
      case Some(i) =>
        if Expired(tokens[i], now) then None
        else if HashMatches(compare, tokens[i].tokenSecretHash, hash(decoded.value)) then Some(i)
        else None
  }

  /** `validate`'s effect on success: the accepted token's `last_seen` becomes `now`. */
  function Stamp(tokens: seq<Token>, i: nat, now: Timestamp): (r: seq<Token>)
    requires i < |tokens|
    ensures |r| == |tokens| && r[i] == tokens[i].(lastSeen := Some(now))
    ensures forall j :: 0 <= j < |tokens| && j != i ==> r[j] == tokens[j]
  {
    tokens[i := tokens[i].(lastSeen := Some(now))]
  }

  /** `retain(|t| t.token_id != id)`: the tokens with other ids, in their order. */
  function WithoutId(tokens: seq<Token>, id: string): (r: seq<Token>)
    ensures |r| <= |tokens|
    ensures |r| < |tokens| <==> HasId(tokens, id)
  {
    if |tokens| == 0 then []
    else
      var init := tokens[..|tokens| - 1];
      var last := tokens[|tokens| - 1];
      assert tokens == init + [last];
      WithoutId(init, id) + (if last.tokenId != id then [last] else [])
  }

  /** What `retain` keeps: every token with another id, nothing with the id, nothing new. */
  lemma {:induction false} WithoutIdMembers(tokens: seq<Token>, id: string)
    ensures forall j :: 0 <= j < |WithoutId(tokens, id)| ==> WithoutId(tokens, id)[j].tokenId != id
    ensures forall t :: t in tokens && t.tokenId != id ==> t in WithoutId(tokens, id)
    ensures forall t :: t in WithoutId(tokens, id) ==> t in tokens
  {
    if |tokens| > 0 {
      var init := tokens[..|tokens| - 1];
      var last := tokens[|tokens| - 1];
      assert tokens == init + [last];
      WithoutIdMembers(init, id);
      var kept := WithoutId(init, id);
      var tail := if last.tokenId != id then [last] else [];
      assert WithoutId(tokens, id) == kept + tail;
      forall t | t in tokens && t.tokenId != id
        ensures t in kept + tail
      {
        if t != last {
          assert t in init;
        }
      }
    }
  }

  // ------------------------------------------------------------ expiry

  /** `s as i64`: the two's-complement reading of a `u64`, negative from 2^63 on. */
  function AsI64(s: U64): (r: int)
    ensures -0x8000_0000_0000_0000 <= r < 0x8000_0000_0000_0000
    ensures r == s || r == s - U64Modulus
  {
    if s < 0x8000_0000_0000_0000 then s else s - U64Modulus
  }

  /** `i64::MAX / 1000`: the most seconds `chrono::Duration::seconds` takes, either sign. */
  const MaxDeltaSecs: int := 9_223_372_036_854_775

  /** Unix seconds of chrono's first instant, -262143-01-01T00:00:00Z. */
  const MinInstant: int := -8_334_601_228_800

  /** Unix seconds of chrono's last whole second, +262142-12-31T23:59:59Z. */
  const MaxInstant: int := 8_210_266_876_799

  /** What `expire_secs.map(|s| Utc::now() + Duration::seconds(s as i64))` gives. */
  datatype Expiry =
    | NoExpiry
    | ExpiresAt(at: Timestamp)
      /** `Duration::seconds` or the addition panicked */
    | Overflow

  function ExpiryOf(expireSecs: Option<U64>, now: Timestamp): (r: Expiry)
    ensures r.NoExpiry? <==> expireSecs.None?
    ensures r.ExpiresAt? ==> r.at == now + AsI64(expireSecs.value)
                             && MinInstant <= r.at <= MaxInstant
  {
    match expireSecs
    case None => NoExpiry
    case Some(s) =>
      var secs := AsI64(s);
      if secs < -MaxDeltaSecs || secs > MaxDeltaSecs then Overflow
      else if now + secs < MinInstant || now + secs > MaxInstant then Overflow
      else ExpiresAt(now + secs)
  }

  /** An ordinary lifetime expires that many seconds from now. */
  lemma ExpiryInRange(s: U64, now: Timestamp)
    requires MinInstant <= now + s <= MaxInstant && s <= MaxDeltaSecs
    ensures ExpiryOf(Some(s), now) == ExpiresAt(now + s)
  {
  }

  /**
   * A lifetime of 2^64 - k seconds wraps to -k: `u64::MAX` gives a token that
   * expires one second before it is created.
   */
  lemma WrappedExpiryInPast(k: nat, now: Timestamp)
    requires 0 < k <= MaxDeltaSecs && MinInstant <= now - k && now <= MaxInstant
    ensures ExpiryOf(Some(U64Modulus - k), now) == ExpiresAt(now - k)
    ensures ExpiryOf(Some(U64Modulus - 1), now) == ExpiresAt(now - 1)
  {
  }

  /** Lifetimes of more than `i64::MAX / 1000` seconds that do not wrap far enough panic. */
  lemma HugeExpiryPanics(s: U64, now: Timestamp)
    requires MaxDeltaSecs < s < U64Modulus - MaxDeltaSecs
    ensures ExpiryOf(Some(s), now) == Overflow
  {
  }

  /** A lifetime that `Duration` takes but that lands past chrono's last instant panics too. */
  lemma FarExpiryPanics(s: U64, now: Timestamp)
    requires s <= MaxDeltaSecs && now + s > MaxInstant
    ensures ExpiryOf(Some(s), now) == Overflow
  {
  }

  /** The token `generate` appends, from the random id and secret bytes and the clock. */
  function NewToken(hash: seq<byte> -> Digest, tokenLabel: Option<string>, expireSecs: Option<U64>,
                    idBytes: seq<byte>, secretBytes: seq<byte>, now: Timestamp): (t: Token)
    requires !ExpiryOf(expireSecs, now).Overflow?
    ensures t.createdAt == now && t.lastSeen.None? && t.tokenLabel == tokenLabel
    ensures t.expiresAt.Some? <==> expireSecs.Some?
    ensures expireSecs.Some? ==> t.expiresAt.value == now + AsI64(expireSecs.value)
  {
    Token("tok_" + BytesToHex(idBytes), BytesToHex(hash(secretBytes)), tokenLabel, now,
          match ExpiryOf(expireSecs, now) case ExpiresAt(at) => Some(at) case _ => None,
          None)
  }

  /** The format `generate` promises: `tok_` and 6 hex digits, a 64-digit secret and hash. */
  lemma NewTokenFormat(hash: seq<byte> -> Digest, tokenLabel: Option<string>,
                       expireSecs: Option<U64>, idBytes: IdBytes, secretBytes: SecretBytes,
                       now: Timestamp)
    requires !ExpiryOf(expireSecs, now).Overflow?
    ensures var t := NewToken(hash, tokenLabel, expireSecs, idBytes, secretBytes, now);
      && StartsWith(t.tokenId, "tok_") && |t.tokenId| == 10
      && (forall i :: 4 <= i < 10 ==> IsLowerHexDigit(t.tokenId[i]))
      && ':' !in t.tokenId
      && |BytesToHex(secretBytes)| == 64
      && |t.tokenSecretHash| == 64
  {
    var t := NewToken(hash, tokenLabel, expireSecs, idBytes, secretBytes, now);
    var hex := BytesToHex(idBytes);
    assert t.tokenId == "tok_" + hex;
    assert forall i :: 4 <= i < 10 ==> t.tokenId[i] == hex[i - 4];
    assert ':' !in t.tokenId by {
      forall i | 0 <= i < |t.tokenId| ensures t.tokenId[i] != ':' {
        if i >= 4 { assert IsLowerHexDigit(hex[i - 4]); }
      }
    }
  }

  /** What `generate` returns: the token and its secret, the save error, or a panic. */
  datatype Generated =
    | Issued(token: Token, secret: string)
    | NotSaved(error: string)
      /** the expiry computation panicked before anything was stored */
    | ExpiryPanic

  // ------------------------------------------------------------ the store

  class TokenStore {
    var tokens: seq<Token>
    const compare: HashCompare
    const hash: seq<byte> -> Digest

    /** `TokenStore::load`: the tokens read from disk (none when the file is absent). */
    constructor (loaded: seq<Token>, compare: HashCompare, hash: seq<byte> -> Digest)
      ensures tokens == loaded && this.compare == compare && this.hash == hash
    {
      tokens := loaded;
      this.compare := compare;
      this.hash := hash;
    }

    /**
     * `generate`: the new token is pushed BEFORE the file is written, so when
     * writing fails (`saveError`) the token stays in memory and the caller
     * only sees the error. An expiry chrono cannot represent panics first.
     */
    method Generate(tokenLabel: Option<string>, expireSecs: Option<U64>,
                    idBytes: IdBytes, secretBytes: SecretBytes, now: Timestamp,
                    saveError: Option<string>)
      returns (r: Generated)
      modifies this
      ensures r.ExpiryPanic? <==> ExpiryOf(expireSecs, now).Overflow?
      ensures r.ExpiryPanic? ==> tokens == old(tokens)
      ensures !r.ExpiryPanic? ==>
                tokens == old(tokens) + [NewToken(hash, tokenLabel, expireSecs, idBytes, secretBytes, now)]
      ensures r.Issued? <==> !r.ExpiryPanic? && saveError.None?
      ensures r.Issued? ==> r.token == tokens[|tokens| - 1] && r.secret == BytesToHex(secretBytes)
      ensures r.NotSaved? ==> saveError == Some(r.error)
    {
      var tokenId := "tok_" + BytesToHex(idBytes);
      var tokenSecret := BytesToHex(secretBytes);
      var tokenSecretHash := BytesToHex(hash(secretBytes));
      var expiresAt: Option<Timestamp> := None;
      if expireSecs.Some? {
        var secs := AsI64(expireSecs.value);
        if secs < -MaxDeltaSecs || secs > MaxDeltaSecs {
          return ExpiryPanic;
        }
        if now + secs < MinInstant || now + secs > MaxInstant {
          return ExpiryPanic;
        }
        expiresAt := Some(now + secs);
      }
      var token := Token(tokenId, tokenSecretHash, tokenLabel, now, expiresAt, None);
      tokens := tokens + [token];
      if saveError.Some? {
        return NotSaved(saveError.value);
      }
      return Issued(token, tokenSecret);
    }

    /** `validate`: true iff the presented secret is accepted; stamps `last_seen` then. */
    method Validate(id: string, secret: string, now: Timestamp) returns (ok: bool)
      modifies this
      ensures ok <==> AcceptedIndex(old(tokens), compare, hash, id, secret, now).Some?
      ensures ok ==> tokens == Stamp(old(tokens), AcceptedIndex(old(tokens), compare, hash, id, secret, now).value, now)
      ensures !ok ==> tokens == old(tokens)
    {
      var decoded := HexToBytes(secret);
      if decoded.Failure? {
        return false;
      }
      var presented := hash(decoded.value);
      var found := FirstWithId(tokens, id);
      if found.None? {
        return false;
      }
      var i := found.value;
      var token := tokens[i];
      if token.expiresAt.Some? && now > token.expiresAt.value {
        return false;
      }
      if !HashMatches(compare, token.tokenSecretHash, presented) {
        return false;
      }
      tokens := tokens[i := token.(lastSeen := Some(now))];
      return true;
    }

    function List(): (r: seq<Token>)
      reads this
      ensures r == tokens
    {
      tokens
    }

    /** `revoke`: deletes every token with the id; true iff there was one. */
    method Revoke(id: string) returns (removed: bool)
      modifies this
      ensures tokens == WithoutId(old(tokens), id)
      ensures removed <==> HasId(old(tokens), id)
    {
      var all := tokens;
      var kept: seq<Token> := [];
      var i := 0;
      while i < |all|
        invariant 0 <= i <= |all|
        invariant kept == WithoutId(all[..i], id)
      {
        assert all[..i + 1] == all[..i] + [all[i]];
        WithoutIdSnoc(all[..i], all[i], id);
        if all[i].tokenId != id {
          kept := kept + [all[i]];
        }
        i := i + 1;
      }
      assert all[..i] == all;
      assert kept == WithoutId(all, id);
      removed := |kept| < |all|;
      tokens := kept;
    }

    /** `revoke_all`: empties the store and returns how many tokens it held. */
    method RevokeAll() returns (count: nat)
      modifies this
      ensures count == |old(tokens)| && tokens == []
    {
      count := |tokens|;
      tokens := [];
    }
  }

  // ------------------------------------------------------------ properties

  /** A secret that is not hex (odd length or a bad digit) is refused whatever the store holds. */
  lemma NonHexSecretRejected(tokens: seq<Token>, compare: HashCompare, hash: seq<byte> -> Digest,
                             id: string, secret: string, now: Timestamp)
    requires |secret| % 2 != 0 || HexToBytes(secret).Failure?
    ensures AcceptedIndex(tokens, compare, hash, id, secret, now).None?
  {
  }

  lemma UnknownIdRejected(tokens: seq<Token>, compare: HashCompare, hash: seq<byte> -> Digest,
                          id: string, secret: string, now: Timestamp)
    requires !HasId(tokens, id)
    ensures AcceptedIndex(tokens, compare, hash, id, secret, now).None?
  {
  }

  /** Both comparison modes agree on every hash `generate` can have stored. */
  lemma CompareModesAgree(d: Digest, presented: Digest)
    ensures HashMatches(DecodedBytes, BytesToHex(d), presented)
        <==> HashMatches(HexText, BytesToHex(d), presented)
    ensures HashMatches(HexText, BytesToHex(d), presented) <==> d == presented
  {
    HexRoundTrip(d);
    if BytesToHex(d) == BytesToHex(presented) {
      BytesToHexInjective(d, presented);
    }
  }

  /**
   * Each generated token accepts its own secret: after `generate` appended it
   * (and no older token has its id), presenting the returned secret before
   * expiry is accepted at the new token's index.
   */
  lemma OwnSecretAccepted(tokens: seq<Token>, compare: HashCompare, hash: seq<byte> -> Digest,
                          tokenLabel: Option<string>, expireSecs: Option<U64>,
                          idBytes: IdBytes, secretBytes: SecretBytes, created: Timestamp,
                          now: Timestamp)
    requires !HasId(tokens, "tok_" + BytesToHex(idBytes))
    requires !ExpiryOf(expireSecs, created).Overflow?
    requires expireSecs.Some? ==> now <= created + AsI64(expireSecs.value)
    ensures var t := NewToken(hash, tokenLabel, expireSecs, idBytes, secretBytes, created);
      AcceptedIndex(tokens + [t], compare, hash, t.tokenId, BytesToHex(secretBytes), now)
        == Some(|tokens|)
  {
    var t := NewToken(hash, tokenLabel, expireSecs, idBytes, secretBytes, created);
    var all := tokens + [t];
    HexRoundTrip(secretBytes);
    HexRoundTrip(hash(secretBytes));
    assert all[|tokens|] == t;
    FirstWithIdAppend(tokens, t, t.tokenId);
    CompareModesAgree(hash(secretBytes), hash(secretBytes));
  }

  /**
   * Secrets do not cross over: presenting another secret whose hash differs
   * from the one this token stores is refused, in either comparison mode.
   */
  lemma OtherSecretRejected(tokens: seq<Token>, compare: HashCompare, hash: seq<byte> -> Digest,
                            i: nat, mine: seq<byte>, other: seq<byte>, now: Timestamp)
    requires i < |tokens| && FirstWithId(tokens, tokens[i].tokenId) == Some(i)
    requires tokens[i].tokenSecretHash == BytesToHex(hash(mine))
    requires hash(other) != hash(mine)
    ensures AcceptedIndex(tokens, compare, hash, tokens[i].tokenId, BytesToHex(other), now).None?
  {
    HexRoundTrip(other);
    CompareModesAgree(hash(mine), hash(other));
  }

  /** At the very instant of expiry a token is still accepted; one second later it is not. */
  lemma ExpiryIsStrict(tokens: seq<Token>, compare: HashCompare, hash: seq<byte> -> Digest,
                       id: string, secret: string, at: Timestamp)
    requires FirstWithId(tokens, id).Some?
    requires tokens[FirstWithId(tokens, id).value].expiresAt == Some(at)
    requires HexToBytes(secret).Success?
    requires HashMatches(compare, tokens[FirstWithId(tokens, id).value].tokenSecretHash,
                         hash(HexToBytes(secret).value))
    ensures AcceptedIndex(tokens, compare, hash, id, secret, at).Some?
    ensures AcceptedIndex(tokens, compare, hash, id, secret, at + 1).None?
  {
  }

  /** Only the first token carrying an id is ever consulted: a later duplicate never validates. */
  lemma LaterDuplicateNeverAccepted(tokens: seq<Token>, compare: HashCompare,
                                    hash: seq<byte> -> Digest, j: nat, secret: string,
                                    now: Timestamp)
    requires j < |tokens|
    requires exists k :: 0 <= k < j && tokens[k].tokenId == tokens[j].tokenId
    ensures AcceptedIndex(tokens, compare, hash, tokens[j].tokenId, secret, now) != Some(j)
  {
  }

  /** After `revoke(id)` no token has the id, so it never validates and a second revoke finds nothing. */
  lemma RevokedIdGone(tokens: seq<Token>, compare: HashCompare, hash: seq<byte> -> Digest,
                      id: string, secret: string, now: Timestamp)
    ensures !HasId(WithoutId(tokens, id), id)
    ensures AcceptedIndex(WithoutId(tokens, id), compare, hash, id, secret, now).None?
    ensures WithoutId(WithoutId(tokens, id), id) == WithoutId(tokens, id)
  {
    var r := WithoutId(tokens, id);
    WithoutIdMembers(tokens, id);
    assert !HasId(r, id);
    WithoutIdNoop(r, id);
  }

  lemma {:induction false} WithoutIdNoop(tokens: seq<Token>, id: string)
    requires !HasId(tokens, id)
    ensures WithoutId(tokens, id) == tokens
  {
    if |tokens| > 0 {
      var init := tokens[..|tokens| - 1];
      assert !HasId(init, id) by {
        forall j | 0 <= j < |init| ensures init[j].tokenId != id {
          assert init[j] == tokens[j];
        }
      }
      WithoutIdNoop(init, id);
      assert tokens == init + [tokens[|tokens| - 1]];
    }
  }

  /** Revoking leaves every other token untouched, in its order. */
  lemma {:induction false} RevokeKeepsOthers(tokens: seq<Token>, id: string, other: string)
    requires other != id
    ensures FirstWithId(WithoutId(tokens, id), other).Some? <==> FirstWithId(tokens, other).Some?
    ensures FirstWithId(tokens, other).Some? ==>
              WithoutId(tokens, id)[FirstWithId(WithoutId(tokens, id), other).value]
              == tokens[FirstWithId(tokens, other).value]
  {
    if |tokens| > 0 {
      var init := tokens[..|tokens| - 1];
      var last := tokens[|tokens| - 1];
      assert tokens == init + [last];
      RevokeKeepsOthers(init, id, other);
      FirstWithIdAppend(init, last, other);
      var tail := if last.tokenId != id then [last] else [];
      var kept := WithoutId(init, id);
      WithoutIdSnoc(init, last, id);
      assert WithoutId(tokens, id) == kept + tail;
      FirstWithIdConcat(kept, tail, other);
      if FirstWithId(init, other).Some? {
        assert (kept + tail)[FirstWithId(kept, other).value] == kept[FirstWithId(kept, other).value];
      } else if last.tokenId == other {
        assert FirstWithId(tail, other) == Some(0);
        assert (kept + tail)[|kept|] == last;
      }
    }
  }

  lemma WithoutIdSnoc(init: seq<Token>, last: Token, id: string)
    ensures WithoutId(init + [last], id)
         == WithoutId(init, id) + (if last.tokenId != id then [last] else [])
  {
    assert (init + [last])[..|init|] == init;
  }

  /** `retain` keeps the order: filtering a concatenation filters each part. */
  lemma {:induction false} WithoutIdAppend(a: seq<Token>, b: seq<Token>, id: string)
    ensures WithoutId(a + b, id) == WithoutId(a, id) + WithoutId(b, id)
    decreases |b|
  {
    if |b| == 0 {
      assert a + b == a;
    } else {
      var init := b[..|b| - 1];
      var last := b[|b| - 1];
      assert b == init + [last];
      assert a + b == (a + init) + [last];
      var tail := if last.tokenId != id then [last] else [];
      calc {
        WithoutId(a + b, id);
        { WithoutIdSnoc(a + init, last, id); }
        WithoutId(a + init, id) + tail;
        { WithoutIdAppend(a, init, id); }
        (WithoutId(a, id) + WithoutId(init, id)) + tail;
        WithoutId(a, id) + (WithoutId(init, id) + tail);
        { WithoutIdSnoc(init, last, id); }
        WithoutId(a, id) + WithoutId(b, id);
      }
    }
  }

  /** Each kept token is kept as often as it occurs; tokens with the id are all gone. */
  lemma {:induction false} WithoutIdCounts(tokens: seq<Token>, id: string, t: Token)
    ensures multiset(WithoutId(tokens, id))[t] == if t.tokenId == id then 0 else multiset(tokens)[t]
    decreases |tokens|
  {
    if |tokens| > 0 {
      var init := tokens[..|tokens| - 1];
      var last := tokens[|tokens| - 1];
      assert tokens == init + [last];
      WithoutIdCounts(init, id, t);
      assert multiset(tokens) == multiset(init) + multiset{last};
      var tail := if last.tokenId != id then [last] else [];
      assert multiset(WithoutId(tokens, id)) == multiset(WithoutId(init, id)) + multiset(tail);
    }
  }

  lemma FirstWithIdAppend(init: seq<Token>, last: Token, id: string)
    ensures FirstWithId(init + [last], id) ==
      if FirstWithId(init, id).Some? then FirstWithId(init, id)
      else if last.tokenId == id then Some(|init|) else None
  {
    FirstWithIdConcat(init, [last], id);
  }

  lemma {:induction false} FirstWithIdConcat(a: seq<Token>, b: seq<Token>, id: string)
    ensures FirstWithId(a + b, id) ==
      if FirstWithId(a, id).Some? then FirstWithId(a, id)
      else match FirstWithId(b, id) case None => None case Some(k) => Some(|a| + k)
  {
    var ab := a + b;
    if |a| == 0 {
      assert ab == b;
    } else {
      assert ab[0] == a[0];
      if a[0].tokenId != id {
        assert ab[1..] == a[1..] + b;
        FirstWithIdConcat(a[1..], b, id);
        var rest := FirstWithId(a[1..], id);
        assert FirstWithId(a, id) == if rest.Some? then Some(rest.value + 1) else None;
      }
    }
  }

  /**
   * `hex_to_bytes` also takes uppercase digits and a `'+'` before a digit, so a
   * secret has other spellings that validate: `"+f"` stands for the byte `0f`.
   */
  lemma AlternativeSpellingAccepted(tokens: seq<Token>, compare: HashCompare,
                                    hash: seq<byte> -> Digest, id: string, now: Timestamp)
    ensures AcceptedIndex(tokens, compare, hash, id, "+f", now)
         == AcceptedIndex(tokens, compare, hash, id, "0f", now)
  {
    PlusPairAccepted();
    HexRoundTrip([15]);
    assert BytesToHex([15]) == "0f";
  }
}
