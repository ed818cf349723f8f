/** Access tokens: the registered claims put into a token (section 4.1 of
    RFC 7519), the issuer and audience checks applied when one is read
    back, and the lazily loaded signing keys. RS256 signing and signature
    and expiry verification (section 3.3 of RFC 7518) are parameters. */
module Jwt {
  import opened Wrappers
  import opened PyStr
  import opened PyValue
  import opened RsaKeys

  /** The JWT part of the settings. */
  datatype JwtSettings = JwtSettings(
    issuer: string,
    audience: string,
    expirationHours: int,
    privateKeyPath: Option<string>,
    privateKey: Option<string>,
    publicKeyPath: Option<string>,
    publicKey: Option<string>)

  const MICROS_PER_SECOND: int := 1000000
  const SECONDS_PER_HOUR: int := 3600

  // ------------------------------------------------------------ audience

  /** `[p.strip() for p in parts if p.strip()]` */
  function StrippedPieces(parts: seq<string>): (r: seq<string>)
    ensures forall k :: 0 <= k < |r| ==> r[k] != "" && Strip(r[k]) == r[k]
    ensures |r| <= |parts|
  {
    if parts == [] then []
    else
      var piece := Strip(parts[0]);
      var rest := StrippedPieces(parts[1..]);
      StripIdempotent(parts[0]);
      if piece != "" then [piece] + rest else rest
  }

  /** `x` is the non-empty strip of one of `parts`. */
  predicate IsStrippedPiece(parts: seq<string>, x: string) {
    x != "" && exists k :: 0 <= k < |parts| && x == Strip(parts[k])
  }

  /** A string is kept exactly when it is the non-empty strip of a piece. */
  lemma {:induction false} StrippedPiecesMembers(parts: seq<string>, x: string)
    ensures x in StrippedPieces(parts) <==> IsStrippedPiece(parts, x)
  {
    if parts != [] {
      var piece := Strip(parts[0]);
      var rest := StrippedPieces(parts[1..]);
      StrippedPiecesMembers(parts[1..], x);
      assert x in StrippedPieces(parts) <==> (piece != "" && x == piece) || x in rest by {
        if piece != "" {
          assert StrippedPieces(parts) == [piece] + rest;
        } else {
          assert StrippedPieces(parts) == rest;
        }
      }
      IsStrippedPieceCons(parts, x);
    }
  }

  /** A strip of a non-empty piece list comes from its head or its tail. */
  lemma IsStrippedPieceCons(parts: seq<string>, x: string)
    requires parts != []
    ensures IsStrippedPiece(parts, x) <==>
      (x != "" && x == Strip(parts[0])) || IsStrippedPiece(parts[1..], x)
  {
    if IsStrippedPiece(parts[1..], x) {
      var k :| 0 <= k < |parts[1..]| && x == Strip(parts[1..][k]);
      assert x == Strip(parts[k + 1]);
    }
    if IsStrippedPiece(parts, x) {
      var k :| 0 <= k < |parts| && x == Strip(parts[k]);
      if k > 0 {
        assert parts[1..][k - 1] == parts[k];
      }
    }
  }

  /** `_parse_audience(audience_str)` */
  function ParseAudience(s: string): seq<string> {
    if ',' in s then StrippedPieces(Split(s, ','))
    else if Strip(s) != "" then [Strip(s)]
    else []
  }

  /** With or without a comma, the audience list is the non-empty stripped
      pieces of the string split at commas. */
  lemma ParseAudienceSplit(s: string)
    ensures ParseAudience(s) == StrippedPieces(Split(s, ','))
  {
    if ',' !in s {
      assert Split(s, ',') == [s];
      assert [s][1..] == [];
      assert StrippedPieces([s][1..]) == [];
      assert [Strip(s)] + [] == [Strip(s)];
    }
  }

  /** Every audience is non-empty, holds no comma and is its own strip. */
  lemma ParseAudienceClean(s: string)
    ensures forall k :: 0 <= k < |ParseAudience(s)| ==>
      ParseAudience(s)[k] != "" && ',' !in ParseAudience(s)[k] && Strip(ParseAudience(s)[k]) == ParseAudience(s)[k]
  {
    ParseAudienceSplit(s);
    var r := ParseAudience(s);
    var parts := Split(s, ',');
    forall k | 0 <= k < |r|
      ensures ',' !in r[k]
    {
      StrippedPiecesMembers(parts, r[k]);
      var j :| 0 <= j < |parts| && r[k] == Strip(parts[j]);
      if ',' in r[k] {
        StripChars(parts[j], ',');
      }
    }
  }

  /** Without a comma the whole string is one audience, or none when it is
      blank. */
  lemma ParseAudienceSingle(s: string)
    requires ',' !in s
    ensures AllSpace(s) ==> ParseAudience(s) == []
    ensures !AllSpace(s) ==> ParseAudience(s) == [Strip(s)]
  {
    StripEmpty(s);
  }

  // ------------------------------------------------------------ claims

  /** `int(t.timestamp())` for a datetime `t` in microseconds: seconds,
      truncated toward zero. */
  function TruncSeconds(micros: int): int {
    if micros >= 0 then micros / MICROS_PER_SECOND else -((-micros) / MICROS_PER_SECOND)
  }

  /** The lifetime used when none is given (or a zero one is). */
  function Lifetime(cfg: JwtSettings, expiresDelta: Option<int>): int {
    if expiresDelta.Some? && expiresDelta.value != 0 then expiresDelta.value
    else cfg.expirationHours * SECONDS_PER_HOUR * MICROS_PER_SECOND
  }

  const REGISTERED_CLAIMS: set<string> := {"iss", "aud", "iat", "exp"}

  /** The payload `create_access_token(data, expires_delta)` signs at time
      `now` (microseconds): the caller's claims updated with the issuer, the
      audience list and the issue and expiry times in whole seconds. */
  function AccessTokenClaims(cfg: JwtSettings, data: Dict, now: int, expiresDelta: Option<int>): (claims: Dict)
    ensures claims.Keys == data.Keys + REGISTERED_CLAIMS
    ensures forall k :: k in data && k !in REGISTERED_CLAIMS ==> claims[k] == data[k]
  {
    data + map[
      "iss" := VStr(cfg.issuer),
      "aud" := StrList(ParseAudience(cfg.audience)),
      "iat" := VInt(TruncSeconds(now)),
      "exp" := VInt(TruncSeconds(now + Lifetime(cfg, expiresDelta)))]
  }

  /** Adding whole seconds to a non-negative time adds them to its
      truncated seconds. */
  lemma TruncAddSeconds(now: int, seconds: int)
    requires now >= 0 && seconds >= 0
    ensures TruncSeconds(now + seconds * MICROS_PER_SECOND) == TruncSeconds(now) + seconds
  {
    var q := now / MICROS_PER_SECOND;
    var r := now % MICROS_PER_SECOND;
    assert now + seconds * MICROS_PER_SECOND == (q + seconds) * MICROS_PER_SECOND + r;
  }

  /** The registered claims always win over the caller's; `exp` is `iat`
      plus the default lifetime in hours when no (or a zero) lifetime is
      given, for any time after the epoch. */
  lemma ClaimsOverwrite(cfg: JwtSettings, data: Dict, now: int, expiresDelta: Option<int>)
    ensures AccessTokenClaims(cfg, data, now, expiresDelta)["iss"] == VStr(cfg.issuer)
    ensures AccessTokenClaims(cfg, data, now, expiresDelta)["aud"] == StrList(ParseAudience(cfg.audience))
    ensures now >= 0 && cfg.expirationHours >= 0 && (expiresDelta.None? || expiresDelta.value == 0) ==>
      AccessTokenClaims(cfg, data, now, expiresDelta)["exp"].i
        == AccessTokenClaims(cfg, data, now, expiresDelta)["iat"].i + cfg.expirationHours * SECONDS_PER_HOUR
  {
    RegisteredClaimValues(cfg, data, now, expiresDelta);
    if now >= 0 && cfg.expirationHours >= 0 && (expiresDelta.None? || expiresDelta.value == 0) {
      var seconds := cfg.expirationHours * SECONDS_PER_HOUR;
      assert Lifetime(cfg, expiresDelta) == seconds * MICROS_PER_SECOND;
      TruncAddSeconds(now, seconds);
    }
  }

  /** The four registered claims hold the values the token is built with. */
  lemma RegisteredClaimValues(cfg: JwtSettings, data: Dict, now: int, expiresDelta: Option<int>)
    ensures var claims := AccessTokenClaims(cfg, data, now, expiresDelta);
      && claims["iss"] == VStr(cfg.issuer)
      && claims["aud"] == StrList(ParseAudience(cfg.audience))
      && claims["iat"] == VInt(TruncSeconds(now))
      && claims["exp"] == VInt(TruncSeconds(now + Lifetime(cfg, expiresDelta)))
  {
    var extra := map[
      "iss" := VStr(cfg.issuer),
      "aud" := StrList(ParseAudience(cfg.audience)),
      "iat" := VInt(TruncSeconds(now)),
      "exp" := VInt(TruncSeconds(now + Lifetime(cfg, expiresDelta)))];
    assert "iss"[1] == 's' && "aud"[1] == 'u' && "iat"[1] == 'a' && "exp"[1] == 'x';
    assert extra["iss"] == VStr(cfg.issuer) && extra["aud"] == StrList(ParseAudience(cfg.audience));
    assert extra["iat"] == VInt(TruncSeconds(now));
    assert extra["exp"] == VInt(TruncSeconds(now + Lifetime(cfg, expiresDelta)));
    assert AccessTokenClaims(cfg, data, now, expiresDelta) == data + extra;
  }

  // ------------------------------------------------------------ decoding

  /** The token's `aud` claim as a list of stripped strings. */
  function TokenAudiences(aud: Value): (r: seq<string>)
    ensures aud.VStr? ==> r == [Strip(aud.s)]
  {
    match aud
    case VStr(s) => [Strip(s)]
    case VList(items) => seq(|items|, k requires 0 <= k < |items| => Strip(Str(items[k])))
    case _ => [Strip(Str(aud))]
  }

  /** `[a.strip() for a in xs]` */
  function StripAll(xs: seq<string>): (r: seq<string>)
    ensures |r| == |xs|
    ensures forall k :: 0 <= k < |xs| ==> r[k] == Strip(xs[k])
  {
    seq(|xs|, k requires 0 <= k < |xs| => Strip(xs[k]))
  }

  /** Stripping strings that are already stripped changes nothing. */
  lemma StripAllFixed(xs: seq<string>)
    requires forall k :: 0 <= k < |xs| ==> Strip(xs[k]) == xs[k]
    ensures StripAll(xs) == xs
  {
  }

  predicate Meets(xs: seq<string>, ys: seq<string>) {
    exists k :: 0 <= k < |xs| && xs[k] in ys
  }

  /** What `decode_token` does after the signature and expiry check:
      `payload` is what that check gives (`None` when it fails). The
      issuer must match exactly and the token's audiences must meet the
      configured ones; every failure is `None`. */
  function CheckClaims(cfg: JwtSettings, payload: Option<Dict>): Option<Dict> {
    if payload.None? then None
    else
      var p := payload.value;
      if Get(p, "iss", VNone) != VStr(cfg.issuer) then None
      else
        var aud := Get(p, "aud", VNone);
        if aud.VNone? then None
        else
          if !Meets(TokenAudiences(aud), StripAll(ParseAudience(cfg.audience))) then None
          else Some(p)
  }

  /** A payload passes exactly when its issuer is the configured one, it
      has an `aud` claim, and one of its audiences is configured; it then
      comes back unchanged. */
  lemma CheckClaimsIff(cfg: JwtSettings, p: Dict)
    ensures CheckClaims(cfg, Some(p)).Some? <==>
      (Get(p, "iss", VNone) == VStr(cfg.issuer) && "aud" in p && !p["aud"].VNone?
       && Meets(TokenAudiences(p["aud"]), ParseAudience(cfg.audience)))
    ensures CheckClaims(cfg, Some(p)).Some? ==> CheckClaims(cfg, Some(p)).value == p
  {
    ParseAudienceClean(cfg.audience);
    StripAllFixed(ParseAudience(cfg.audience));
  }

  /** With no configured audience every token is refused. */
  lemma EmptyAudienceRejects(cfg: JwtSettings, payload: Option<Dict>)
    requires ParseAudience(cfg.audience) == []
    ensures CheckClaims(cfg, payload).None?
  {
  }

  /** The audience claim this service writes reads back as the configured
      audiences. */
  lemma OwnAudiences(auds: seq<string>)
    requires forall k :: 0 <= k < |auds| ==> Strip(auds[k]) == auds[k]
    ensures TokenAudiences(StrList(auds)) == auds
  {
    var v := StrList(auds);
    forall k | 0 <= k < |auds|
      ensures TokenAudiences(v)[k] == auds[k]
    {
      assert v.items[k] == VStr(auds[k]);
    }
  }

  /** The claims this service puts into a token pass its own checks exactly
      when some audience is configured. */
  lemma OwnClaimsAccepted(cfg: JwtSettings, data: Dict, now: int, expiresDelta: Option<int>)
    ensures CheckClaims(cfg, Some(AccessTokenClaims(cfg, data, now, expiresDelta))).Some?
      <==> ParseAudience(cfg.audience) != []
  {
    var claims := AccessTokenClaims(cfg, data, now, expiresDelta);
    var auds := ParseAudience(cfg.audience);
    CheckClaimsIff(cfg, claims);
    ClaimsOverwrite(cfg, data, now, expiresDelta);
    ParseAudienceClean(cfg.audience);
    OwnAudiences(auds);
    assert Meets(TokenAudiences(claims["aud"]), auds) <==> auds != [] by {
      if auds != [] {
        assert auds[0] in auds;
      }
    }
  }

  /** `get_permissions_from_token` once the token is decoded: the
      `permissions` claim when it is a list, else the empty list (also for
      a refused token or an empty payload). */
  function PermissionsClaim(payload: Option<Dict>): (r: seq<Value>)
    ensures payload.None? || payload.value == map[] ==> r == []
    ensures r != [] ==>
      (payload.Some? && "permissions" in payload.value && payload.value["permissions"] == VList(r))
    ensures payload.Some? && payload.value != map[] && "permissions" in payload.value
            && payload.value["permissions"].VList? ==>
      r == payload.value["permissions"].items
    ensures payload.Some? && ("permissions" !in payload.value || !payload.value["permissions"].VList?) ==>
      r == []
  {
    if payload.None? || payload.value == map[] then []
    else
      var perms := Get(payload.value, "permissions", VList([]));
      if perms.VList? then perms.items else []
  }

  // ------------------------------------------------------------ keys

  /** The module-level key cache. `privateLoads`/`publicLoads` count the
      successful loads. */
  class JwtKeys {
    const settings: JwtSettings
    const fs: FileSystem
    var privateKey: Option<Bytes>
    var publicKey: Option<Bytes>
    ghost var privateLoads: nat
    ghost var publicLoads: nat

    /** A key is loaded at most once, is cached exactly when it was, and a
        cached key is the one its configured source gives. */
    ghost predicate Valid()
      reads this
    {
      && privateLoads <= 1 && (privateLoads == 1 <==> privateKey.Some?)
      && publicLoads <= 1 && (publicLoads == 1 <==> publicKey.Some?)
      && (privateKey.Some? ==> LoadPrivateKey(settings.privateKeyPath, settings.privateKey, fs) == Success(privateKey.value))
      && (publicKey.Some? ==> LoadPublicKey(settings.publicKeyPath, settings.publicKey, fs) == Success(publicKey.value))
    }

    constructor(settings: JwtSettings, fs: FileSystem)
      ensures Valid()
      ensures this.settings == settings && this.fs == fs
      ensures privateKey.None? && publicKey.None?
    {
      this.settings := settings;
      this.fs := fs;
      privateKey := None;
      publicKey := None;
      privateLoads := 0;
      publicLoads := 0;
    }

    /** `get_private_key()`: the cached key, or the key loaded now and
      cached; a loading error propagates and nothing is cached. */
    method GetPrivateKey() returns (r: Result<Bytes, string>)
      requires Valid()
      modifies this
      ensures Valid()
      ensures publicKey == old(publicKey) && publicLoads == old(publicLoads)
      ensures old(privateKey).Some? ==>
        r == Success(old(privateKey).value) && privateKey == old(privateKey) && privateLoads == old(privateLoads)
      ensures old(privateKey).None? ==>
        r == LoadPrivateKey(settings.privateKeyPath, settings.privateKey, fs)
        && (r.Success? ==> privateKey == Some(r.value))
        && (r.Failure? ==> privateKey.None? && privateLoads == old(privateLoads))
    {
      if privateKey.None? {
        var loaded := LoadPrivateKey(settings.privateKeyPath, settings.privateKey, fs);
        if loaded.Success? {
          privateKey := Some(loaded.value);
          privateLoads := privateLoads + 1;
        }
        return loaded;
      }
      return Success(privateKey.value);
    }

    /** `get_public_key()`, the same for the verification key. */
    method GetPublicKey() returns (r: Result<Bytes, string>)
      requires Valid()
      modifies this
      ensures Valid()
      ensures privateKey == old(privateKey) && privateLoads == old(privateLoads)
      ensures old(publicKey).Some? ==>
        r == Success(old(publicKey).value) && publicKey == old(publicKey) && publicLoads == old(publicLoads)
      ensures old(publicKey).None? ==>
        r == LoadPublicKey(settings.publicKeyPath, settings.publicKey, fs)
        && (r.Success? ==> publicKey == Some(r.value))
        && (r.Failure? ==> publicKey.None? && publicLoads == old(publicLoads))
    {
      if publicKey.None? {
        var loaded := LoadPublicKey(settings.publicKeyPath, settings.publicKey, fs);
        if loaded.Success? {
          publicKey := Some(loaded.value);
          publicLoads := publicLoads + 1;
        }
        return loaded;
      }
      return Success(publicKey.value);
    }

    /** `create_access_token(data, expires_delta)` at time `now`; `sign` is
      RS256 signing. A key-loading error propagates. */
    method CreateAccessToken(data: Dict, now: int, expiresDelta: Option<int>,
                             sign: (Dict, Bytes) -> string) returns (r: Result<string, string>)
      requires Valid()
      modifies this
      ensures Valid()
      ensures publicKey == old(publicKey) && publicLoads == old(publicLoads)
      ensures r.Success? ==>
        (privateKey.Some? && r.value == sign(AccessTokenClaims(settings, data, now, expiresDelta), privateKey.value))
      ensures r.Failure? ==>
        privateKey.None? && LoadPrivateKey(settings.privateKeyPath, settings.privateKey, fs) == Failure(r.error)
      ensures old(privateKey).Some? ==> r.Success? && privateKey == old(privateKey)
    {
      var key := GetPrivateKey();
      if key.Failure? {
        return Failure(key.error);
      }
      return Success(sign(AccessTokenClaims(settings, data, now, expiresDelta), key.value));
    }

    /** `decode_token(token)`; `verify` is the RS256 signature and expiry
      check, giving the payload or `None`. Claim failures are `None`; a
      key-loading error propagates. */
    method DecodeToken(token: string, verify: (string, Bytes) -> Option<Dict>) returns (r: Result<Option<Dict>, string>)
      requires Valid()
      modifies this
      ensures Valid()
      ensures privateKey == old(privateKey) && privateLoads == old(privateLoads)
      ensures r.Success? ==> publicKey.Some? && r.value == CheckClaims(settings, verify(token, publicKey.value))
      ensures r.Failure? ==>
        publicKey.None? && LoadPublicKey(settings.publicKeyPath, settings.publicKey, fs) == Failure(r.error)
      ensures old(publicKey).Some? ==> r.Success? && publicKey == old(publicKey)
    {
      var key := GetPublicKey();
      if key.Failure? {
        return Failure(key.error);
      }
      return Success(CheckClaims(settings, verify(token, key.value)));
    }

    /** `get_permissions_from_token(token)` */
    method GetPermissionsFromToken(token: string, verify: (string, Bytes) -> Option<Dict>)
      returns (r: Result<seq<Value>, string>)
      requires Valid()
      modifies this
      ensures Valid()
      ensures privateKey == old(privateKey) && privateLoads == old(privateLoads)
      ensures r.Success? ==>
        (publicKey.Some? && r.value == PermissionsClaim(CheckClaims(settings, verify(token, publicKey.value))))
      ensures r.Failure? ==>
        publicKey.None? && LoadPublicKey(settings.publicKeyPath, settings.publicKey, fs) == Failure(r.error)
      ensures old(publicKey).Some? ==> r.Success? && publicKey == old(publicKey)
    {
      var payload := DecodeToken(token, verify);
      if payload.Failure? {
        return Failure(payload.error);
      }
      return Success(PermissionsClaim(payload.value));
    }
  }

  /** Once both keys are cached, creating and decoding tokens loads nothing
      again and never fails to find a key. */
  method KeysLoadedOnce(keys: JwtKeys, data: Dict, now: int, token: string,
                        sign: (Dict, Bytes) -> string, verify: (string, Bytes) -> Option<Dict>)
    requires keys.Valid() && keys.privateKey.Some? && keys.publicKey.Some?
    modifies keys
    ensures keys.Valid() && keys.privateLoads == 1 && keys.publicLoads == 1
    ensures keys.privateKey == old(keys.privateKey) && keys.publicKey == old(keys.publicKey)
  {
    var t := keys.CreateAccessToken(data, now, None, sign);
    var p := keys.DecodeToken(token, verify);
    var t2 := keys.CreateAccessToken(data, now, None, sign);
  }
}
