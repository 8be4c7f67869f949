/**
 * VaultAppRoleKvV2Client: reads one field of a KV version 2 secret from Vault or OpenBao,
 * authenticating with AppRole (role_id + secret_id), keeping the client token between calls,
 * retrying once when a read is refused with HTTP 403, and caching values in an LruExpiringCache.
 *
 * The network is a Server: a function from the requests this client has already sent and the
 * request it sends now to the reply it gets. The clock is passed in as arguments. The pure
 * functions below (LoginStep, EnsureTokenStep, ReadStep, Fetch, Serve) say what each step of
 * the protocol does to a Session (the token and the requests sent so far) and to the cache
 * State; the class at the end performs the same steps on its fields and is proved against them.
 */
module VaultClient {
  import opened Wrappers
  import opened Text
  import opened Json
  import opened Secrets
  import opened Config
  import opened UrlUtil
  import opened LruCache

  // ---------------------------------------------------------------------------------------
  // The network

  /** An HTTP request: the AppRole login POST, or the KV v2 GET with the X-Vault-Token header. */
  datatype Request =
    | LoginRequest(url: string, payload: string)
    | ReadRequest(url: string, token: string)

  /** What ObjectMapper.readTree makes of a body: a tree, MissingNode for no content, or an error. */
  datatype Parsed = Tree(root: Json) | NoContent | Malformed(reason: string)

  /** The status code and body of a response, or the IOException of a failed exchange. */
  datatype Reply =
    | Reply(status: int, body: string, parsed: Parsed)
    | TransportFailure(reason: string)

  /** The backend: the reply to a request, given every request this client sent before it. */
  type Server = (seq<Request>, Request) -> Reply

  /** How many of the requests are logins. */
  function Logins(rs: seq<Request>): nat
  {
    if rs == [] then 0
    else Logins(rs[..|rs| - 1]) + if rs[|rs| - 1].LoginRequest? then 1 else 0
  }

  /** How many of the requests are reads. */
  function Reads(rs: seq<Request>): nat
  {
    if rs == [] then 0
    else Reads(rs[..|rs| - 1]) + if rs[|rs| - 1].ReadRequest? then 1 else 0
  }

  lemma CountAppend(rs: seq<Request>, r: Request)
    ensures Logins(rs + [r]) == Logins(rs) + if r.LoginRequest? then 1 else 0
    ensures Reads(rs + [r]) == Reads(rs) + if r.ReadRequest? then 1 else 0
  {
    assert (rs + [r])[..|rs|] == rs;
  }

  // ---------------------------------------------------------------------------------------
  // Settings

  /** The fields the constructor reads from the configuration. */
  datatype Settings = Settings(
    addr: string,
    mount: string,
    loginPath: string,
    roleId: string,
    secretId: string,
    timeoutMs: int,
    ttlMillis: int,
    maxEntries: int)

  /** Two's-complement wrap-around of a Java long. */
  function Wrap64(x: int): (r: int)
    ensures LongMin <= r <= LongMax
    ensures (r - x) % 0x1_0000_0000_0000_0000 == 0
    ensures LongMin <= x <= LongMax ==> r == x
  {
    (x - LongMin) % 0x1_0000_0000_0000_0000 + LongMin
  }

  /** cacheTtlMillis as the constructor computes it: Math.max(0L, ttlSeconds) * 1000L in a long. */
  function TtlMillisAsWritten(ttlSeconds: int): int
  {
    Wrap64((if ttlSeconds < 0 then 0 else ttlSeconds) * 1000)
  }

  /** The TTL in milliseconds that was meant: negative TTLs clamp to 0, and no overflow. */
  function TtlMillis(ttlSeconds: int): (r: int)
    ensures r >= 0 && r % 1000 == 0
    ensures r > 0 <==> ttlSeconds > 0
    ensures r / 1000 == if ttlSeconds < 0 then 0 else ttlSeconds
  {
    (if ttlSeconds < 0 then 0 else ttlSeconds) * 1000
  }

  /**
   * A positive TTL that Long.parseLong accepts can make the long product wrap to a negative
   * number, and a non-positive cacheTtlMillis switches the cache off.
   */
  lemma TtlOverflowDisablesCache()
    ensures TtlMillis(9223372036854776) > 0
    ensures TtlMillisAsWritten(9223372036854776) == -9223372036854775616
    ensures LongMin <= 9223372036854776 <= LongMax
  {
  }

  /** For every TTL up to Long.MAX_VALUE / 1000 seconds the two computations agree. */
  lemma TtlAgreesWithoutOverflow(ttlSeconds: int)
    requires ttlSeconds <= LongMax / 1000
    ensures TtlMillisAsWritten(ttlSeconds) == TtlMillis(ttlSeconds)
  {
  }

  /** The cache capacity: Math.max(1, maxEntries). */
  function Capacity(s: Settings): (r: int)
    ensures r >= 1 && (s.maxEntries >= 1 ==> r == s.maxEntries)
  {
    if s.maxEntries < 1 then 1 else s.maxEntries
  }

  /** The configuration keys the constructor reads. */
  const AddrKey: string := "vault.addr"
  const MountKey: string := "vault.mount"
  const LoginPathKey: string := "vault.approle.loginPath"
  const RoleIdKey: string := "vault.approle.role_id"
  const SecretIdKey: string := "vault.approle.secret_id"
  const TimeoutKey: string := "vault.timeoutMs"
  const TtlKey: string := "secrets.cache.ttlSeconds"
  const MaxEntriesKey: string := "secrets.cache.maxEntries"

  /**
   * The constructor's reading of the configuration, in its order: vault.addr (required, one
   * trailing slash dropped), vault.mount, vault.approle.loginPath, vault.approle.role_id and
   * vault.approle.secret_id (required), vault.timeoutMs, secrets.cache.ttlSeconds and
   * secrets.cache.maxEntries. The first setting that fails decides the failure.
   */
  function ParseSettings(p: Properties): (r: Result<Settings, Failure>)
    ensures r.Success? <==>
      && Req(p, AddrKey).Success?
      && Req(p, RoleIdKey).Success?
      && Req(p, SecretIdKey).Success?
      && GetInt(p, TimeoutKey, 5000).Success?
      && GetLong(p, TtlKey, 300).Success?
      && GetInt(p, MaxEntriesKey, 200).Success?
    ensures Missing(p, AddrKey) ==> r == Failure(IllegalArgument("Missing property: " + AddrKey))
    ensures !Missing(p, AddrKey) && Missing(p, RoleIdKey) ==>
      r == Failure(IllegalArgument("Missing property: " + RoleIdKey))
    ensures (!Missing(p, AddrKey) && !Missing(p, RoleIdKey)
             && Missing(p, SecretIdKey)) ==>
      r == Failure(IllegalArgument("Missing property: " + SecretIdKey))
    ensures (!Missing(p, AddrKey) && !Missing(p, RoleIdKey)
             && !Missing(p, SecretIdKey)) ==>
      r == ParseTuning(p, TrimTrailingSlash(Some(Trim(p[AddrKey]))).value,
                       Get(p, MountKey, "secret"),
                       Get(p, LoginPathKey, "/v1/auth/approle/login"),
                       Trim(p[RoleIdKey]), Trim(p[SecretIdKey]))
    ensures r.Success? ==>
      && r.value.addr == TrimTrailingSlash(Some(Trim(p[AddrKey]))).value
      && r.value.mount == Get(p, MountKey, "secret")
      && r.value.loginPath == Get(p, LoginPathKey, "/v1/auth/approle/login")
      && r.value.roleId == Trim(p[RoleIdKey]) && r.value.roleId != ""
      && r.value.secretId == Trim(p[SecretIdKey]) && r.value.secretId != ""
      && r.value.timeoutMs == GetInt(p, TimeoutKey, 5000).value
      && r.value.ttlMillis == TtlMillis(GetLong(p, TtlKey, 300).value)
      && r.value.maxEntries == GetInt(p, MaxEntriesKey, 200).value
  {
    var addr := Req(p, AddrKey);
    if addr.Failure? then Failure(addr.error) else
    var mount := Get(p, MountKey, "secret");
    var loginPath := Get(p, LoginPathKey, "/v1/auth/approle/login");
    var roleId := Req(p, RoleIdKey);
    if roleId.Failure? then Failure(roleId.error) else
    var secretId := Req(p, SecretIdKey);
    if secretId.Failure? then Failure(secretId.error) else
    ParseTuning(p, TrimTrailingSlash(Some(addr.value)).value, mount, loginPath, roleId.value,
                secretId.value)
  }

  /**
   * The rest of the constructor, once the required settings are read: vault.timeoutMs (default
   * 5000), secrets.cache.ttlSeconds (default 300) and secrets.cache.maxEntries (default 200), in
   * that order; the first that does not parse decides the failure.
   */
  function ParseTuning(p: Properties, addr: string, mount: string, loginPath: string, roleId: string,
                       secretId: string): (r: Result<Settings, Failure>)
    ensures r.Success? <==>
      && GetInt(p, TimeoutKey, 5000).Success?
      && GetLong(p, TtlKey, 300).Success?
      && GetInt(p, MaxEntriesKey, 200).Success?
    ensures GetInt(p, TimeoutKey, 5000).Failure? ==>
      r == Failure(GetInt(p, TimeoutKey, 5000).error)
    ensures (GetInt(p, TimeoutKey, 5000).Success?
             && GetLong(p, TtlKey, 300).Failure?) ==>
      r == Failure(GetLong(p, TtlKey, 300).error)
    ensures (GetInt(p, TimeoutKey, 5000).Success?
             && GetLong(p, TtlKey, 300).Success?
             && GetInt(p, MaxEntriesKey, 200).Failure?) ==>
      r == Failure(GetInt(p, MaxEntriesKey, 200).error)
    ensures r.Success? ==>
      r.value == Settings(addr, mount, loginPath, roleId, secretId,
                          GetInt(p, TimeoutKey, 5000).value,
                          TtlMillis(GetLong(p, TtlKey, 300).value),
                          GetInt(p, MaxEntriesKey, 200).value)
  {
    var timeoutMs := GetInt(p, TimeoutKey, 5000);
    if timeoutMs.Failure? then Failure(timeoutMs.error) else
    var ttlSeconds := GetLong(p, TtlKey, 300);
    if ttlSeconds.Failure? then Failure(ttlSeconds.error) else
    var maxEntries := GetInt(p, MaxEntriesKey, 200);
    if maxEntries.Failure? then Failure(maxEntries.error) else
    Success(Settings(addr, mount, loginPath, roleId, secretId, timeoutMs.value,
                     TtlMillis(ttlSeconds.value), maxEntries.value))
  }

  /** The settings depend on the eight properties they read and on nothing else. */
  lemma ParseSettingsReadsOnly(p1: Properties, p2: Properties)
    requires SameSetting(p1, p2, AddrKey) && SameSetting(p1, p2, MountKey)
    requires SameSetting(p1, p2, LoginPathKey)
    requires SameSetting(p1, p2, RoleIdKey) && SameSetting(p1, p2, SecretIdKey)
    requires SameSetting(p1, p2, TimeoutKey) && SameSetting(p1, p2, TtlKey)
    requires SameSetting(p1, p2, MaxEntriesKey)
    ensures ParseSettings(p1) == ParseSettings(p2)
  {
    ReadersSeeOnlyTheirKey(p1, p2, AddrKey, "", 0);
    ReadersSeeOnlyTheirKey(p1, p2, MountKey, "secret", 0);
    ReadersSeeOnlyTheirKey(p1, p2, LoginPathKey, "/v1/auth/approle/login", 0);
    ReadersSeeOnlyTheirKey(p1, p2, RoleIdKey, "", 0);
    ReadersSeeOnlyTheirKey(p1, p2, SecretIdKey, "", 0);
    ReadersSeeOnlyTheirKey(p1, p2, TimeoutKey, "", 5000);
    ReadersSeeOnlyTheirKey(p1, p2, TtlKey, "", 300);
    ReadersSeeOnlyTheirKey(p1, p2, MaxEntriesKey, "", 200);
  }

  /**
   * With none of the five optional settings present the defaults apply: mount "secret", the
   * standard AppRole login path, a 5000 ms timeout, a 300 s TTL and at most 200 entries.
   */
  lemma ParseSettingsDefaults(p: Properties)
    requires !Missing(p, AddrKey) && !Missing(p, RoleIdKey)
    requires !Missing(p, SecretIdKey)
    requires MountKey !in p && LoginPathKey !in p && TimeoutKey !in p
    requires TtlKey !in p && MaxEntriesKey !in p
    ensures var r := ParseSettings(p);
      && r.Success?
      && r.value.mount == "secret"
      && r.value.loginPath == "/v1/auth/approle/login"
      && r.value.timeoutMs == 5000
      && r.value.ttlMillis == 300000
      && r.value.maxEntries == 200
  {
    assert GetInt(p, TimeoutKey, 5000) == Success(5000);
    assert GetLong(p, TtlKey, 300) == Success(300);
    assert GetInt(p, MaxEntriesKey, 200) == Success(200);
  }

  // ---------------------------------------------------------------------------------------
  // Building the requests

  /** cacheKey(path, key): the two joined by a '|'. */
  function CacheKey(path: string, key: string): (r: string)
    ensures |r| == |path| + |key| + 1
    ensures r[..|path|] == path && r[|path|] == '|' && r[|path| + 1..] == key
  {
    path + "|" + key
  }

  /** The key is ambiguous once a path or key holds a '|': ("a|b", "c") and ("a", "b|c") collide. */
  lemma CacheKeyCollides()
    ensures CacheKey("a|b", "c") == CacheKey("a", "b|c")
  {
  }

  /** Paths without a '|' never collide: the first '|' of the key ends the path. */
  lemma CacheKeyInjective(path1: string, key1: string, path2: string, key2: string)
    requires '|' !in path1 && '|' !in path2
    requires CacheKey(path1, key1) == CacheKey(path2, key2)
    ensures path1 == path2 && key1 == key2
  {
    var k := CacheKey(path1, key1);
    assert path1 == k[..|path1|] == path2;
    assert key1 == k[|path1| + 1..] == key2;
  }

  /** How escapeJson writes one character. */
  function EscapedChar(c: char): string
  {
    if c == '\\' then "\\\\" else if c == '"' then "\\\"" else [c]
  }

  /** Every character written as escapeJson writes it. */
  function Escaped(s: string): string
  {
    if s == [] then "" else EscapedChar(s[0]) + Escaped(s[1..])
  }

  /** escapeJson: null becomes "", every '\' is doubled, then every '"' gets a '\' before it. */
  function EscapeJson(s: Option<string>): string
  {
    match s
    case None => ""
    case Some(t) => ReplaceChar(ReplaceChar(t, '\\', "\\\\"), '"', "\\\"")
  }

  /** The two replacements together escape character by character. */
  lemma {:induction false} EscapeJsonByChar(t: string)
    ensures EscapeJson(Some(t)) == Escaped(t)
  {
    if t != [] {
      var once := ReplaceChar(t, '\\', "\\\\");
      assert once == (if t[0] == '\\' then "\\\\" else [t[0]]) + ReplaceChar(t[1..], '\\', "\\\\");
      ReplaceCharAppend(if t[0] == '\\' then "\\\\" else [t[0]], ReplaceChar(t[1..], '\\', "\\\\"), '"', "\\\"");
      if t[0] == '\\' {
        ReplaceCharAbsent("\\\\", '"', "\\\"");
      } else if t[0] == '"' {
        assert ReplaceChar([t[0]], '"', "\\\"") == "\\\"" + ReplaceChar([], '"', "\\\"");
      } else {
        assert ReplaceChar([t[0]], '"', "\\\"") == [t[0]] + ReplaceChar([], '"', "\\\"");
      }
      EscapeJsonByChar(t[1..]);
    }
  }

  /** Reading a JSON string literal's content back: "\x" stands for x. */
  function Unescape(e: string): string
  {
    if e == [] then ""
    else if e[0] == '\\' && |e| >= 2 then [e[1]] + Unescape(e[2..])
    else [e[0]] + Unescape(e[1..])
  }

  /** No '"' ends the literal early, and no '\' is left dangling at the end. */
  predicate SafeInLiteral(e: string)
  {
    if e == [] then true
    else if e[0] == '"' then false
    else if e[0] == '\\' then |e| >= 2 && SafeInLiteral(e[2..])
    else SafeInLiteral(e[1..])
  }

  /**
   * escapeJson's output can sit between quotes in the login payload: it does not close the
   * literal early, and reading it back gives the original text.
   */
  lemma {:induction false} EscapeJsonRoundTrip(t: string)
    ensures SafeInLiteral(EscapeJson(Some(t)))
    ensures Unescape(EscapeJson(Some(t))) == t
  {
    EscapeJsonByChar(t);
    EscapedRoundTrip(t);
  }

  lemma {:induction false} EscapedRoundTrip(t: string)
    ensures SafeInLiteral(Escaped(t)) && Unescape(Escaped(t)) == t
  {
    if t != [] {
      EscapedRoundTrip(t[1..]);
      var e := Escaped(t);
      var n := |EscapedChar(t[0])|;
      assert e[n..] == Escaped(t[1..]);
      if t[0] == '\\' || t[0] == '"' {
        assert e[0] == '\\' && e[1] == t[0];
      } else {
        assert e[0] == t[0];
      }
    }
  }

  /** A string with no control character is written by Jackson exactly as escapeJson writes it. */
  lemma EscapedIsJackson(t: string)
    requires forall k :: 0 <= k < |t| ==> t[k] as int >= 32
    ensures Quote(t) == "\"" + Escaped(t) + "\""
  {
    EscapedIsEscapeAll(t);
  }

  lemma {:induction false} EscapedIsEscapeAll(t: string)
    requires forall k :: 0 <= k < |t| ==> t[k] as int >= 32
    ensures EscapeAll(t) == Escaped(t)
  {
    if t != [] {
      EscapedIsEscapeAll(t[1..]);
    }
  }

  /** The member names of the login payload need no escaping. */
  lemma QuoteRoleId()
    ensures Quote("role_id") == "\"" + "role_id" + "\""
  {
    QuotePlain("role_id");
  }

  lemma QuoteSecretId()
    ensures Quote("secret_id") == "\"" + "secret_id" + "\""
  {
    QuotePlain("secret_id");
  }

  /** The login URL: addr, then the login path with a '/' in front when it has none. */
  function LoginUrl(s: Settings): (r: string)
    ensures StartsWith(r, s.addr) && |r| > |s.addr| && r[|s.addr|] == '/'
    ensures EndsWith(r, s.loginPath)
    ensures |r| == |s.addr| + |s.loginPath| + (if StartsWith(s.loginPath, "/") then 0 else 1)
  {
    s.addr + if StartsWith(s.loginPath, "/") then s.loginPath else "/" + s.loginPath
  }

  /** Writing the login path with or without its leading '/' gives the same URL. */
  lemma LoginUrlSlashOptional(s: Settings)
    requires !StartsWith(s.loginPath, "/")
    ensures LoginUrl(s) == LoginUrl(s.(loginPath := "/" + s.loginPath))
  {
  }

  /** The body of the login POST: {"role_id":"<roleId>","secret_id":"<secretId>"}. */
  function LoginPayload(s: Settings): string
  {
    "{\"role_id\":\"" + EscapeJson(Some(s.roleId)) + "\",\"secret_id\":\"" + EscapeJson(Some(s.secretId))
      + "\"}"
  }

  /**
   * For identifiers without control characters the payload is the JSON object Jackson would
   * write for {role_id: roleId, secret_id: secretId}.
   */
  lemma LoginPayloadIsJson(s: Settings)
    requires forall k :: 0 <= k < |s.roleId| ==> s.roleId[k] as int >= 32
    requires forall k :: 0 <= k < |s.secretId| ==> s.secretId[k] as int >= 32
    ensures LoginPayload(s)
         == Serialize(JObject([Member("role_id", JString(s.roleId)), Member("secret_id", JString(s.secretId))]))
  {
    var a := Escaped(s.roleId);
    var b := Escaped(s.secretId);
    assert LoginPayload(s) == "{\"role_id\":\"" + a + "\",\"secret_id\":\"" + b + "\"}" by {
      EscapeJsonByChar(s.roleId);
      EscapeJsonByChar(s.secretId);
    }
    QuoteRoleId();
    QuoteSecretId();
    var j1 := Serialize(JString(s.roleId));
    var j2 := Serialize(JString(s.secretId));
    assert j1 == "\"" + a + "\"" by { EscapedIsJackson(s.roleId); }
    assert j2 == "\"" + b + "\"" by { EscapedIsJackson(s.secretId); }
    SerializeTwoMembers("role_id", JString(s.roleId), "secret_id", JString(s.secretId));
    PayloadText(a, b);
  }

  /** The payload text around the two escaped identifiers. */
  lemma PayloadText(a: string, b: string)
    ensures "{\"role_id\":\"" + a + "\",\"secret_id\":\"" + b + "\"}"
         == "{" + (("\"" + "role_id" + "\"") + ":" + ("\"" + a + "\"")) + ","
              + (("\"" + "secret_id" + "\"") + ":" + ("\"" + b + "\"")) + "}"
  {
  }

  /** The KV v2 read URL: addr + "/v1/" + mount + "/data/" + the encoded secret path. */
  function ReadUrl(s: Settings, path: string): (r: string)
    ensures StartsWith(r, s.addr + "/v1/" + s.mount + "/data/")
    ensures r[|s.addr + "/v1/" + s.mount + "/data/"|..] == EncodedPath(Some(path))
  {
    s.addr + "/v1/" + s.mount + "/data/" + EncodedPath(Some(path))
  }

  // ---------------------------------------------------------------------------------------
  // Classifying replies

  predicate IsSuccessStatus(status: int) { 200 <= status < 300 }

  /** The tree readTree gives; None is MissingNode. */
  function Root(parsed: Parsed): Option<Json>
    requires !parsed.Malformed?
  {
    if parsed.Tree? then Some(parsed.root) else None
  }

  /** auth.client_token of a login response, read with asText(null). */
  function ClientToken(root: Option<Json>): Option<string>
  {
    AsText(Path(Path(root, "auth"), "client_token"))
  }

  /**
   * The end of loginAppRole: a non-2xx status fails with the status and body; a 2xx body must
   * hold a non-empty auth.client_token, read with asText(null).
   */
  function ClassifyLogin(reply: Reply): (r: Result<string, Failure>)
    ensures reply.TransportFailure? ==> r == Failure(IoError(reply.reason))
    ensures reply.Reply? && !IsSuccessStatus(reply.status) ==>
      r == Failure(SecretError("Vault AppRole login failed HTTP " + Decimal(reply.status) + ": " + reply.body))
    ensures r.Success? <==>
      && reply.Reply? && IsSuccessStatus(reply.status) && reply.parsed.Tree?
      && var token := ClientToken(Some(reply.parsed.root)); token.Some? && token.value != ""
    ensures r.Success? ==> r.value == ClientToken(Some(reply.parsed.root)).value
    ensures reply.Reply? && IsSuccessStatus(reply.status) && !reply.parsed.Malformed? && r.Failure? ==>
      r.error == SecretError("Vault AppRole login response missing auth.client_token")
  {
    match reply
    case TransportFailure(reason) => Failure(IoError(reason))
    case Reply(code, body, parsed) =>
      if !IsSuccessStatus(code) then
        Failure(SecretError("Vault AppRole login failed HTTP " + Decimal(code) + ": " + body))
      else if parsed.Malformed? then Failure(IoError(parsed.reason))
      else
        var token := ClientToken(Root(parsed));
        if token.None? || token.value == "" then
          Failure(SecretError("Vault AppRole login response missing auth.client_token"))
        else Success(token.value)
  }

  /**
   * A numeric auth.client_token is not refused: asText(null) prints it, so the token is its
   * decimal text.
   */
  lemma NumericTokenAccepted(status: int, body: string, n: int)
    requires IsSuccessStatus(status)
    ensures var auth := JObject([Member("client_token", JNumber(n))]);
      ClassifyLogin(Reply(status, body, Tree(JObject([Member("auth", auth)])))) == Success(Decimal(n))
  {
    var auth := JObject([Member("client_token", JNumber(n))]);
    var root := JObject([Member("auth", auth)]);
    assert Path(Some(root), "auth") == Some(auth);
    assert Path(Some(auth), "client_token") == Some(JNumber(n));
    assert Digits(if n < 0 then -n else n) != "";
  }

  /** The node readKv2Secret looks at: data.data.<key>. */
  function ValueNode(root: Option<Json>, key: string): Option<Json>
  {
    Path(Path(Path(root, "data"), "data"), key)
  }

  /**
   * The end of readKv2Secret: 404 is "path not found", any other non-2xx status fails with
   * the status and body, a missing or null data.data.<key> is "key not found", a string value
   * is returned as it is and any other value as its JSON text.
   */
  function ClassifyRead(path: string, key: string, reply: Reply): (r: Result<string, Failure>)
    ensures reply.TransportFailure? ==> r == Failure(IoError(reply.reason))
    ensures reply.Reply? && reply.status == 404 ==> r == Failure(NotFound("Secret path not found: " + path))
    ensures reply.Reply? && reply.status != 404 && !IsSuccessStatus(reply.status) ==>
      r == Failure(SecretError("Vault read failed HTTP " + Decimal(reply.status) + ": " + reply.body))
    ensures r.Success? <==>
      && reply.Reply? && IsSuccessStatus(reply.status) && !reply.parsed.Malformed?
      && var v := ValueNode(Root(reply.parsed), key); v.Some? && !v.value.JNull?
    ensures r.Success? ==> var v := ValueNode(Root(reply.parsed), key).value;
      r.value == if v.JString? then v.text else Serialize(v)
    ensures reply.Reply? && IsSuccessStatus(reply.status) && !reply.parsed.Malformed? && r.Failure? ==>
      r.error == NotFound("Key not found: " + path + "." + key)
  {
    match reply
    case TransportFailure(reason) => Failure(IoError(reason))
    case Reply(code, body, parsed) =>
      if code == 404 then Failure(NotFound("Secret path not found: " + path))
      else if !IsSuccessStatus(code) then
        Failure(SecretError("Vault read failed HTTP " + Decimal(code) + ": " + body))
      else if parsed.Malformed? then Failure(IoError(parsed.reason))
      else
        var node := ValueNode(Root(parsed), key);
        if node.None? || node.value.JNull? then Failure(NotFound("Key not found: " + path + "." + key))
        else if node.value.JString? then Success(node.value.text)
        else Success(Serialize(node.value))
  }

  // ---------------------------------------------------------------------------------------
  // The protocol

  /** The client's mutable part: its token (null is None) and every request it has sent. */
  datatype Session = Session(token: Option<string>, sent: seq<Request>)

  /** A step's result and the session it leaves. */
  datatype Outcome = Outcome(result: Result<string, Failure>, session: Session)

  /** True when the session holds a usable token: non-null and non-empty. */
  predicate HasToken(sess: Session) { sess.token.Some? && sess.token.value != "" }

  /** loginAppRole: one POST; its result is the token. It does not touch the stored token. */
  function LoginStep(s: Settings, sess: Session, server: Server): (o: Outcome)
    ensures o.session == sess.(sent := sess.sent + [LoginRequest(LoginUrl(s), LoginPayload(s))])
    ensures o.result.Success? ==> o.result.value != ""
  {
    var request := LoginRequest(LoginUrl(s), LoginPayload(s));
    Outcome(ClassifyLogin(server(sess.sent, request)), sess.(sent := sess.sent + [request]))
  }

  /** ensureToken: nothing when a non-empty token is held, else a login whose token is kept. */
  function EnsureTokenStep(s: Settings, sess: Session, server: Server): Outcome
  {
    if HasToken(sess) then Outcome(Success(sess.token.value), sess)
    else
      var login := LoginStep(s, sess, server);
      if login.result.Success? then Outcome(login.result, login.session.(token := Some(login.result.value)))
      else login
  }

  /** readKv2Secret with the given token: one GET, classified. */
  function ReadStep(s: Settings, sess: Session, path: string, key: string, token: string, server: Server): (o: Outcome)
    ensures o.session == sess.(sent := sess.sent + [ReadRequest(ReadUrl(s, path), token)])
  {
    var request := ReadRequest(ReadUrl(s, path), token);
    Outcome(ClassifyRead(path, key, server(sess.sent, request)), sess.(sent := sess.sent + [request]))
  }

  /** The failures that trigger the one retry: a SecretException whose message has "HTTP 403". */
  predicate Retriable(f: Failure)
  {
    f.IsSecretException() && Contains(f.message, "HTTP 403")
  }

  /** What getRequired throws for a failure: SecretExceptions as they are, all else wrapped. */
  function Wrap(f: Failure): (r: Failure)
    ensures r.IsSecretException()
    ensures f.IsSecretException() ==> r == f
  {
    if f.IsSecretException() then f else SecretError("Failed to read secret from Vault")
  }

  function WrapResult(r: Result<string, Failure>): Result<string, Failure>
  {
    if r.Success? then r else Failure(Wrap(r.error))
  }

  /**
   * The uncached part of getRequired: ensureToken, a read, and after a failure whose message
   * contains "HTTP 403" one more round of clearing the token, ensureToken and a read.
   */
  function Fetch(s: Settings, sess: Session, path: string, key: string, server: Server): Outcome
  {
    var first := EnsureTokenStep(s, sess, server);
    if first.result.Failure? then Outcome(Failure(Wrap(first.result.error)), first.session)
    else
      var read := ReadStep(s, first.session, path, key, first.result.value, server);
      if read.result.Success? || !Retriable(read.result.error) then
        Outcome(WrapResult(read.result), read.session)
      else Retry(s, read.session, path, key, server)
  }

  /** The retry branch: the token is cleared, so ensureToken logs in again. */
  function Retry(s: Settings, sess: Session, path: string, key: string, server: Server): Outcome
  {
    var again := EnsureTokenStep(s, sess.(token := None), server);
    if again.result.Failure? then Outcome(Failure(Wrap(again.result.error)), again.session)
    else
      var read := ReadStep(s, again.session, path, key, again.result.value, server);
      Outcome(WrapResult(read.result), read.session)
  }

  /** What getRequired returns and what it leaves in the cache and the session. */
  datatype Answer = Answer(result: Result<string, Failure>, cache: State, session: Session)

  /** The expiry getRequired stores: storedAt + cacheTtlMillis, a sum of two Java longs. */
  function ExpiresAt(s: Settings, storedAt: int): (r: int)
    ensures LongMin <= r <= LongMax
    ensures LongMin <= storedAt + s.ttlMillis <= LongMax ==> r == storedAt + s.ttlMillis
  {
    Wrap64(storedAt + s.ttlMillis)
  }

  /**
   * When storedAt + cacheTtlMillis passes Long.MAX_VALUE the stored expiry wraps to a point
   * before storedAt, so the entry is already expired at every later clock reading.
   */
  lemma ExpiryWrapsBeforeStoredAt(s: Settings, storedAt: int)
    requires 0 <= storedAt <= LongMax && 0 < s.ttlMillis <= LongMax
    requires storedAt + s.ttlMillis > LongMax
    ensures ExpiresAt(s, storedAt) < storedAt
  {
    var x := storedAt + s.ttlMillis;
    assert Wrap64(x) == x - 0x1_0000_0000_0000_0000 by {
      assert LongMin <= x - 0x1_0000_0000_0000_0000 <= LongMax;
      WrapOfShifted(x);
    }
  }

  /** Wrap64 of a number one period above the long range takes that period off. */
  lemma WrapOfShifted(x: int)
    requires LongMin <= x - 0x1_0000_0000_0000_0000 <= LongMax
    ensures Wrap64(x) == x - 0x1_0000_0000_0000_0000
  {
    var y := x - LongMin;
    assert 0x1_0000_0000_0000_0000 <= y < 2 * 0x1_0000_0000_0000_0000;
    assert y % 0x1_0000_0000_0000_0000 == y - 0x1_0000_0000_0000_0000;
  }

  /**
   * A TTL of 9223372036854775 seconds, which Long.parseLong accepts and whose product with 1000
   * stays inside a long, stores an already-expired entry at a present-day clock reading.
   */
  lemma HugeTtlStoresExpired()
    ensures var s := Settings("", "", "", "", "", 5000, TtlMillis(9223372036854775), 200);
      && TtlMillisAsWritten(9223372036854775) == TtlMillis(9223372036854775)
      && ExpiresAt(s, 1760000000000) < 1760000000000
  {
    var s := Settings("", "", "", "", "", 5000, TtlMillis(9223372036854775), 200);
    TtlAgreesWithoutOverflow(9223372036854775);
    ExpiryWrapsBeforeStoredAt(s, 1760000000000);
  }

  /**
   * The TTL of the overflow finding, 9223372036854776 s, gives a product just past
   * Long.MAX_VALUE even when it is not wrapped, so its expiry still wraps to before storedAt:
   * the value is stored but never served.
   */
  lemma CorrectedTtlStillExpires()
    ensures var s := Settings("", "", "", "", "", 5000, TtlMillis(9223372036854776), 200);
      && s.ttlMillis > LongMax
      && ExpiresAt(s, 1760000000000) < 1760000000000
  {
    var s := Settings("", "", "", "", "", 5000, TtlMillis(9223372036854776), 200);
    WrapOfShifted(1760000000000 + s.ttlMillis);
  }

  /**
   * getRequired(path, key): with a positive TTL, a live cache entry answers at once; otherwise
   * the value is fetched and, with a positive TTL, stored to expire at ExpiresAt(s, storedAt).
   * checkedAt and storedAt are the two clock readings the method takes.
   */
  function Serve(s: Settings, cache: State, sess: Session, path: string, key: string, server: Server,
                 checkedAt: int, storedAt: int): Answer
  {
    var ck := CacheKey(path, key);
    var probe := if s.ttlMillis > 0 then Lookup(cache, ck, checkedAt) else Read(None, cache);
    if probe.value.Some? then Answer(Success(probe.value.value), probe.after, sess)
    else Store(s, probe.after, ck, Fetch(s, sess, path, key, server), storedAt)
  }

  /** The end of getRequired: a fetched value is cached when the TTL is positive. */
  function Store(s: Settings, cache: State, ck: string, fetched: Outcome, storedAt: int): Answer
  {
    if fetched.result.Success? && s.ttlMillis > 0 then
      Answer(fetched.result, Insert(cache, Capacity(s), ck, fetched.result.value, ExpiresAt(s, storedAt)),
             fetched.session)
    else Answer(fetched.result, cache, fetched.session)
  }

  // ---------------------------------------------------------------------------------------
  // Token lifecycle

  /** ensureToken with a usable token sends nothing and keeps it. */
  lemma EnsureTokenKeeps(s: Settings, sess: Session, server: Server)
    requires HasToken(sess)
    ensures EnsureTokenStep(s, sess, server) == Outcome(Success(sess.token.value), sess)
  {
  }

  /**
   * ensureToken with a null or empty token sends exactly one login; on success the token it
   * returns is non-empty and becomes the session's token, on failure the token stays as it was.
   */
  lemma EnsureTokenLogsIn(s: Settings, sess: Session, server: Server)
    requires !HasToken(sess)
    ensures var o := EnsureTokenStep(s, sess, server);
      && o.session.sent == sess.sent + [LoginRequest(LoginUrl(s), LoginPayload(s))]
      && (o.result.Success? ==> o.result.value != "" && o.session.token == Some(o.result.value))
      && (o.result.Failure? ==> o.session.token == sess.token)
  {
  }

  /** After ensureToken succeeds the session holds a usable token, and it is the one returned. */
  lemma EnsureTokenHolds(s: Settings, sess: Session, server: Server)
    ensures var o := EnsureTokenStep(s, sess, server);
      o.result.Success? ==> HasToken(o.session) && o.session.token == Some(o.result.value)
  {
  }

  /** No step stores an empty token: a session without one keeps that property through a fetch. */
  lemma FetchNeverStoresEmptyToken(s: Settings, sess: Session, path: string, key: string, server: Server)
    requires sess.token != Some("")
    ensures Fetch(s, sess, path, key, server).session.token != Some("")
  {
    var first := EnsureTokenStep(s, sess, server);
    EnsureTokenNeverStoresEmpty(s, sess, server);
    if first.result.Success? {
      var read := ReadStep(s, first.session, path, key, first.result.value, server);
      assert read.session.token == first.session.token;
      if !(read.result.Success? || !Retriable(read.result.error)) {
        RetryNeverStoresEmptyToken(s, read.session, path, key, server);
      }
    }
  }

  /** ensureToken keeps a session without an empty token that way. */
  lemma EnsureTokenNeverStoresEmpty(s: Settings, sess: Session, server: Server)
    requires sess.token != Some("")
    ensures EnsureTokenStep(s, sess, server).session.token != Some("")
  {
    if !HasToken(sess) {
      var login := LoginStep(s, sess, server);
      assert login.session.token == sess.token;
    }
  }

  /** The retry branch never stores an empty token, whatever the session it starts from. */
  lemma RetryNeverStoresEmptyToken(s: Settings, sess: Session, path: string, key: string, server: Server)
    ensures Retry(s, sess, path, key, server).session.token != Some("")
  {
    var again := EnsureTokenStep(s, sess.(token := None), server);
    EnsureTokenNeverStoresEmpty(s, sess.(token := None), server);
    if again.result.Success? {
      var read := ReadStep(s, again.session, path, key, again.result.value, server);
      assert read.session.token == again.session.token;
    }
  }

  // ---------------------------------------------------------------------------------------
  // Retry

  /** Every failure getRequired reports without the cache is a SecretException. */
  lemma FetchFailsWithSecretException(s: Settings, sess: Session, path: string, key: string, server: Server)
    ensures var o := Fetch(s, sess, path, key, server);
      o.result.Failure? ==> o.result.error.IsSecretException()
  {
  }

  /** after extends before by at most the given numbers of logins and reads. */
  predicate Extends(before: seq<Request>, after: seq<Request>, moreLogins: nat, moreReads: nat)
  {
    && |after| >= |before| && after[..|before|] == before
    && Logins(after) <= Logins(before) + moreLogins && Reads(after) <= Reads(before) + moreReads
  }

  lemma ExtendsTrans(a: seq<Request>, b: seq<Request>, c: seq<Request>, l1: nat, r1: nat, l2: nat, r2: nat)
    requires Extends(a, b, l1, r1) && Extends(b, c, l2, r2)
    ensures Extends(a, c, l1 + l2, r1 + r2)
  {
    assert c[..|a|] == c[..|b|][..|a|];
  }

  lemma EnsureTokenCounts(s: Settings, sess: Session, server: Server)
    ensures Extends(sess.sent, EnsureTokenStep(s, sess, server).session.sent, 1, 0)
  {
    if !HasToken(sess) {
      var request := LoginRequest(LoginUrl(s), LoginPayload(s));
      CountAppend(sess.sent, request);
      assert (sess.sent + [request])[..|sess.sent|] == sess.sent;
    }
  }

  lemma ReadStepCounts(s: Settings, sess: Session, path: string, key: string, token: string, server: Server)
    ensures Extends(sess.sent, ReadStep(s, sess, path, key, token, server).session.sent, 0, 1)
  {
    var request := ReadRequest(ReadUrl(s, path), token);
    CountAppend(sess.sent, request);
    assert (sess.sent + [request])[..|sess.sent|] == sess.sent;
  }

  lemma RetryCounts(s: Settings, sess: Session, path: string, key: string, server: Server)
    ensures Extends(sess.sent, Retry(s, sess, path, key, server).session.sent, 1, 1)
  {
    var cleared := sess.(token := None);
    var again := EnsureTokenStep(s, cleared, server);
    EnsureTokenCounts(s, cleared, server);
    if again.result.Success? {
      ReadStepCounts(s, again.session, path, key, again.result.value, server);
      ExtendsTrans(sess.sent, again.session.sent,
                   ReadStep(s, again.session, path, key, again.result.value, server).session.sent, 1, 0, 0, 1);
    } else {
      assert Extends(sess.sent, again.session.sent, 1, 1);
    }
  }

  /** A fetch appends to the requests sent, and sends at most two logins and at most two reads. */
  lemma FetchRequestBounds(s: Settings, sess: Session, path: string, key: string, server: Server)
    ensures var o := Fetch(s, sess, path, key, server);
      && |o.session.sent| >= |sess.sent| && o.session.sent[..|sess.sent|] == sess.sent
      && Logins(o.session.sent) <= Logins(sess.sent) + 2
      && Reads(o.session.sent) <= Reads(sess.sent) + 2
  {
    var first := EnsureTokenStep(s, sess, server);
    EnsureTokenCounts(s, sess, server);
    if first.result.Success? {
      var read := ReadStep(s, first.session, path, key, first.result.value, server);
      ReadStepCounts(s, first.session, path, key, first.result.value, server);
      ExtendsTrans(sess.sent, first.session.sent, read.session.sent, 1, 0, 0, 1);
      if read.result.Failure? && Retriable(read.result.error) {
        RetryCounts(s, read.session, path, key, server);
        ExtendsTrans(sess.sent, read.session.sent, Retry(s, read.session, path, key, server).session.sent,
                     1, 1, 1, 1);
      }
    }
  }

  /** The outcome of the first read, when ensureToken succeeds. */
  function FirstRead(s: Settings, sess: Session, path: string, key: string, server: Server): Outcome
    requires EnsureTokenStep(s, sess, server).result.Success?
  {
    var first := EnsureTokenStep(s, sess, server);
    ReadStep(s, first.session, path, key, first.result.value, server)
  }

  /** A failed login is never retried: nothing is read and the failure is reported. */
  lemma LoginFailureNotRetried(s: Settings, sess: Session, path: string, key: string, server: Server)
    requires EnsureTokenStep(s, sess, server).result.Failure?
    ensures var o := Fetch(s, sess, path, key, server);
      && o.session.sent == sess.sent + [LoginRequest(LoginUrl(s), LoginPayload(s))]
      && o.result == Failure(Wrap(EnsureTokenStep(s, sess, server).result.error))
  {
  }

  /** A first read that succeeds, or fails without "HTTP 403", is the only read. */
  lemma NoRetryWithout403(s: Settings, sess: Session, path: string, key: string, server: Server)
    requires EnsureTokenStep(s, sess, server).result.Success?
    requires var r := FirstRead(s, sess, path, key, server).result; r.Success? || !Retriable(r.error)
    ensures var o := Fetch(s, sess, path, key, server);
      && o.session == FirstRead(s, sess, path, key, server).session
      && o.result == WrapResult(FirstRead(s, sess, path, key, server).result)
  {
  }

  /**
   * A first read refused with "HTTP 403" clears the token and logs in again; when that login
   * succeeds exactly one more read is made with the new token, and its result, success or
   * failure, is final.
   */
  lemma RetryOnceAfter403(s: Settings, sess: Session, path: string, key: string, server: Server)
    requires EnsureTokenStep(s, sess, server).result.Success?
    requires var r := FirstRead(s, sess, path, key, server).result; r.Failure? && Retriable(r.error)
    ensures var before := FirstRead(s, sess, path, key, server).session;
      var login := LoginStep(s, before.(token := None), server);
      var o := Fetch(s, sess, path, key, server);
      && (login.result.Failure? ==>
            o.result == Failure(Wrap(login.result.error))
            && o.session == Session(None, before.sent + [LoginRequest(LoginUrl(s), LoginPayload(s))]))
      && (login.result.Success? ==>
            var read := ReadStep(s, Session(Some(login.result.value), login.session.sent), path, key,
                                 login.result.value, server);
            o.result == WrapResult(read.result) && o.session == read.session
            && o.session.sent == before.sent + [LoginRequest(LoginUrl(s), LoginPayload(s)),
                                                ReadRequest(ReadUrl(s, path), login.result.value)])
  {
  }

  /** Any status from 4030 to 4039 also triggers the retry, since only the message is looked at. */
  lemma RetryOnStatus403x(path: string, key: string, digit: nat, body: string, parsed: Parsed)
    requires digit < 10
    ensures var r := ClassifyRead(path, key, Reply(4030 + digit, body, parsed));
      r.Failure? && Retriable(r.error)
  {
    DecimalOf403(digit);
    ReadFailureFrom403(path, key, 4030 + digit, [DigitChar(digit)], body, parsed);
  }

  /** A read refused with a status written "403..." fails with a retriable message. */
  lemma ReadFailureFrom403(path: string, key: string, status: int, rest: string, body: string, parsed: Parsed)
    requires status != 404 && !IsSuccessStatus(status) && Decimal(status) == "403" + rest
    ensures var r := ClassifyRead(path, key, Reply(status, body, parsed));
      r.Failure? && Retriable(r.error)
  {
    assert "Vault read failed HTTP " + ("403" + rest) + ": " + body
        == "Vault read failed " + "HTTP 403" + (rest + ": " + body);
    ContainsInfix("Vault read failed ", "HTTP 403", rest + ": " + body);
  }

  /** A 404 for a path whose text contains "HTTP 403" also triggers the retry. */
  lemma RetryOnPathContaining403(prefix: string, suffix: string, key: string, body: string, parsed: Parsed)
    ensures var path := prefix + "HTTP 403" + suffix;
      var r := ClassifyRead(path, key, Reply(404, body, parsed));
      r.Failure? && r.error.NotFound? && Retriable(r.error)
  {
    var path := prefix + "HTTP 403" + suffix;
    assert "Secret path not found: " + path == ("Secret path not found: " + prefix) + "HTTP 403" + suffix;
    ContainsInfix("Secret path not found: " + prefix, "HTTP 403", suffix);
  }

  /** A plain 403 refusal triggers the retry. */
  lemma RetryOn403(path: string, key: string, body: string, parsed: Parsed)
    ensures var r := ClassifyRead(path, key, Reply(403, body, parsed));
      r.Failure? && Retriable(r.error)
  {
    DecimalOf403(0);
    assert "403" + [] == "403";
    ReadFailureFrom403(path, key, 403, [], body, parsed);
  }

  // ---------------------------------------------------------------------------------------
  // Cache use

  /** With a positive TTL, a live entry answers at once: no request, no change to the session. */
  lemma ServeCacheHit(s: Settings, cache: State, sess: Session, path: string, key: string, server: Server,
                      checkedAt: int, storedAt: int)
    requires s.ttlMillis > 0
    requires var ck := CacheKey(path, key); ck in cache.entries && checkedAt < cache.entries[ck].expiresAt
    ensures var a := Serve(s, cache, sess, path, key, server, checkedAt, storedAt);
      && a.result == Success(cache.entries[CacheKey(path, key)].value)
      && a.session == sess
      && a.cache == Lookup(cache, CacheKey(path, key), checkedAt).after
  {
  }

  /** With a TTL of 0 the cache is neither read nor written: the answer is a fetch's. */
  lemma ServeCacheDisabled(s: Settings, cache: State, sess: Session, path: string, key: string,
                           server: Server, checkedAt: int, storedAt: int)
    requires s.ttlMillis <= 0
    ensures var a := Serve(s, cache, sess, path, key, server, checkedAt, storedAt);
      var f := Fetch(s, sess, path, key, server);
      a == Answer(f.result, cache, f.session)
  {
  }

  /**
   * On a miss (absent, expired, or evicted earlier) with a positive TTL, the value is fetched,
   * and a successful one is stored under the cache key to expire at ExpiresAt(s, storedAt).
   */
  lemma ServeMissStores(s: Settings, cache: State, sess: Session, path: string, key: string,
                        server: Server, checkedAt: int, storedAt: int)
    requires s.ttlMillis > 0 && WellFormed(cache, Capacity(s))
    requires var ck := CacheKey(path, key); ck !in cache.entries || checkedAt >= cache.entries[ck].expiresAt
    ensures var a := Serve(s, cache, sess, path, key, server, checkedAt, storedAt);
      var f := Fetch(s, sess, path, key, server);
      var ck := CacheKey(path, key);
      && a.result == f.result && a.session == f.session
      && (f.result.Success? ==>
            ck in a.cache.entries && a.cache.entries[ck] == Entry(f.result.value, ExpiresAt(s, storedAt)))
      && (f.result.Failure? ==> ck !in a.cache.entries)
  {
    var ck := CacheKey(path, key);
    var probe := Lookup(cache, ck, checkedAt);
    var f := Fetch(s, sess, path, key, server);
    assert ck !in probe.after.entries && probe.value.None?;
    GetWellFormed(cache, Capacity(s), ck, checkedAt);
    StoreOutcome(s, probe.after, ck, f, storedAt);
  }

  /**
   * With a TTL so large that storedAt + cacheTtlMillis wraps, the value a miss stores is never
   * served: every get at or after storedAt finds it expired.
   */
  lemma WrappedExpiryNeverHits(s: Settings, cache: State, sess: Session, path: string, key: string,
                               server: Server, checkedAt: int, storedAt: int, later: int)
    requires s.ttlMillis > 0 && WellFormed(cache, Capacity(s))
    requires var ck := CacheKey(path, key); ck !in cache.entries || checkedAt >= cache.entries[ck].expiresAt
    requires 0 <= storedAt <= LongMax && s.ttlMillis <= LongMax && storedAt + s.ttlMillis > LongMax
    requires later >= storedAt
    ensures var a := Serve(s, cache, sess, path, key, server, checkedAt, storedAt);
      Lookup(a.cache, CacheKey(path, key), later).value == None
  {
    ServeMissStores(s, cache, sess, path, key, server, checkedAt, storedAt);
    ExpiryWrapsBeforeStoredAt(s, storedAt);
  }

  /** What the end of getRequired leaves: the fetched outcome, and the value cached if it is one. */
  lemma StoreOutcome(s: Settings, cache: State, ck: string, fetched: Outcome, storedAt: int)
    requires s.ttlMillis > 0 && WellFormed(cache, Capacity(s)) && ck !in cache.entries
    ensures var a := Store(s, cache, ck, fetched, storedAt);
      && a.result == fetched.result && a.session == fetched.session
      && WellFormed(a.cache, Capacity(s))
      && (fetched.result.Success? ==>
            ck in a.cache.entries && a.cache.entries[ck] == Entry(fetched.result.value, ExpiresAt(s, storedAt)))
      && (fetched.result.Failure? ==> ck !in a.cache.entries)
  {
    if fetched.result.Success? {
      PutStores(cache, Capacity(s), ck, fetched.result.value, ExpiresAt(s, storedAt));
    }
  }

  /** The end of getRequired keeps the cache well formed. */
  lemma StoreWellFormed(s: Settings, cache: State, ck: string, fetched: Outcome, storedAt: int)
    requires WellFormed(cache, Capacity(s))
    ensures WellFormed(Store(s, cache, ck, fetched, storedAt).cache, Capacity(s))
  {
    if fetched.result.Success? && s.ttlMillis > 0 {
      PutStores(cache, Capacity(s), ck, fetched.result.value, ExpiresAt(s, storedAt));
    }
  }

  /** getRequired keeps the cache within its capacity and well formed. */
  lemma ServeWellFormed(s: Settings, cache: State, sess: Session, path: string, key: string,
                        server: Server, checkedAt: int, storedAt: int)
    requires WellFormed(cache, Capacity(s))
    ensures WellFormed(Serve(s, cache, sess, path, key, server, checkedAt, storedAt).cache, Capacity(s))
  {
    var ck := CacheKey(path, key);
    var probe := if s.ttlMillis > 0 then Lookup(cache, ck, checkedAt) else Read(None, cache);
    GetWellFormed(cache, Capacity(s), ck, checkedAt);
    assert WellFormed(probe.after, Capacity(s));
    StoreWellFormed(s, probe.after, ck, Fetch(s, sess, path, key, server), storedAt);
  }

  // ---------------------------------------------------------------------------------------
  // An expired token, end to end

  const SecretBody: Json :=
    JObject([Member("data", JObject([Member("data", JObject([Member("password", JString("s3cr3t"))]))]))])

  /**
   * A backend whose first token has expired: the first login gives "T1", a read with "T1" is
   * refused with HTTP 403, the second login gives "T2", and a read with "T2" finds the secret.
   */
  function ExpiringTokenServer(history: seq<Request>, request: Request): Reply
  {
    match request
    case LoginRequest(_, _) =>
      var token := if Logins(history) == 0 then "T1" else "T2";
      Reply(200, "", Tree(JObject([Member("auth", JObject([Member("client_token", JString(token))]))])))
    case ReadRequest(_, token) =>
      if token == "T1" then Reply(403, "permission denied", NoContent)
      else Reply(200, "", Tree(SecretBody))
  }

  /** The first login to the expiring-token backend gives "T1", any later one "T2". */
  lemma ExpiringTokenLogin(s: Settings, sess: Session)
    requires !HasToken(sess)
    ensures var o := EnsureTokenStep(s, sess, ExpiringTokenServer);
      var token := if Logins(sess.sent) == 0 then "T1" else "T2";
      o == Outcome(Success(token), Session(Some(token), sess.sent + [LoginRequest(LoginUrl(s), LoginPayload(s))]))
  {
    var token := if Logins(sess.sent) == 0 then "T1" else "T2";
    var root := JObject([Member("auth", JObject([Member("client_token", JString(token))]))]);
    assert ClientToken(Some(root)) == Some(token);
  }

  /** The expiring-token backend refuses "T1" with 403 and serves the secret to "T2". */
  lemma ExpiringTokenRead(s: Settings, sess: Session, path: string, token: string)
    requires token == "T1" || token == "T2"
    ensures var o := ReadStep(s, sess, path, "password", token, ExpiringTokenServer);
      && (token == "T1" ==> o.result.Failure? && Retriable(o.result.error))
      && (token == "T2" ==> o.result == Success("s3cr3t"))
  {
    if token == "T1" {
      RetryOn403(path, "password", "permission denied", NoContent);
    } else {
      assert ValueNode(Some(SecretBody), "password") == Some(JString("s3cr3t"));
    }
  }

  /** After a 403 on the first read, the fetch is the retry from the session that read left. */
  lemma FetchTakesRetry(s: Settings, sess: Session, path: string, key: string, server: Server)
    requires EnsureTokenStep(s, sess, server).result.Success?
    requires var r := FirstRead(s, sess, path, key, server).result; r.Failure? && Retriable(r.error)
    ensures Fetch(s, sess, path, key, server) == Retry(s, FirstRead(s, sess, path, key, server).session, path, key, server)
  {
  }

  /** Appending to short request logs. */
  lemma Snoc1(a: Request, b: Request)
    ensures [a] + [b] == [a, b]
  {
  }

  lemma Snoc2(a: Request, b: Request, c: Request)
    ensures [a, b] + [c] == [a, b, c]
  {
  }

  lemma Snoc3(a: Request, b: Request, c: Request, d: Request)
    ensures [a, b, c] + [d] == [a, b, c, d]
  {
  }

  /** The first login gives "T1". */
  lemma RenewalFirstLogin(s: Settings)
    ensures EnsureTokenStep(s, Session(None, []), ExpiringTokenServer)
         == Outcome(Success("T1"), Session(Some("T1"), [LoginRequest(LoginUrl(s), LoginPayload(s))]))
  {
    ExpiringTokenLogin(s, Session(None, []));
  }

  /** The read with "T1" is refused with a retriable failure. */
  lemma RenewalFirstRead(s: Settings, path: string)
    ensures var login := LoginRequest(LoginUrl(s), LoginPayload(s));
      var read1 := ReadRequest(ReadUrl(s, path), "T1");
      var r1 := ReadStep(s, Session(Some("T1"), [login]), path, "password", "T1", ExpiringTokenServer);
      && r1.result.Failure? && Retriable(r1.result.error)
      && r1.session == Session(Some("T1"), [login, read1])
  {
    var login := LoginRequest(LoginUrl(s), LoginPayload(s));
    var read1 := ReadRequest(ReadUrl(s, path), "T1");
    ExpiringTokenRead(s, Session(Some("T1"), [login]), path, "T1");
    Snoc1(login, read1);
  }

  /** First login gives "T1", whose read is refused, so the fetch goes on to the retry. */
  lemma RenewalStartsRetry(s: Settings, path: string)
    ensures var login := LoginRequest(LoginUrl(s), LoginPayload(s));
      var read1 := ReadRequest(ReadUrl(s, path), "T1");
      Fetch(s, Session(None, []), path, "password", ExpiringTokenServer)
        == Retry(s, Session(Some("T1"), [login, read1]), path, "password", ExpiringTokenServer)
  {
    RenewalFirstLogin(s);
    RenewalFirstRead(s, path);
    FetchTakesRetry(s, Session(None, []), path, "password", ExpiringTokenServer);
  }

  /** The read with "T2" finds the secret. */
  lemma RenewalSecondRead(s: Settings, path: string)
    ensures var login := LoginRequest(LoginUrl(s), LoginPayload(s));
      var read1 := ReadRequest(ReadUrl(s, path), "T1");
      var read2 := ReadRequest(ReadUrl(s, path), "T2");
      var r2 := ReadStep(s, Session(Some("T2"), [login, read1, login]), path, "password", "T2", ExpiringTokenServer);
      && r2.result == Success("s3cr3t")
      && r2.session == Session(Some("T2"), [login, read1, login, read2])
  {
    var login := LoginRequest(LoginUrl(s), LoginPayload(s));
    var read1 := ReadRequest(ReadUrl(s, path), "T1");
    var read2 := ReadRequest(ReadUrl(s, path), "T2");
    ExpiringTokenRead(s, Session(Some("T2"), [login, read1, login]), path, "T2");
    Snoc3(login, read1, login, read2);
  }

  /** The retry logs in again for "T2" and reads the secret with it. */
  lemma RenewalRetrySucceeds(s: Settings, path: string)
    ensures var login := LoginRequest(LoginUrl(s), LoginPayload(s));
      var read1 := ReadRequest(ReadUrl(s, path), "T1");
      var read2 := ReadRequest(ReadUrl(s, path), "T2");
      Retry(s, Session(Some("T1"), [login, read1]), path, "password", ExpiringTokenServer)
        == Outcome(Success("s3cr3t"), Session(Some("T2"), [login, read1, login, read2]))
  {
    var login := LoginRequest(LoginUrl(s), LoginPayload(s));
    var read1 := ReadRequest(ReadUrl(s, path), "T1");
    RenewalSecondLogin(s, path);
    RenewalSecondRead(s, path);
    RetryAfterLogin(s, Session(Some("T1"), [login, read1]), path, "password", ExpiringTokenServer);
  }

  /** After a login and a read, the next login gives "T2". */
  lemma RenewalSecondLogin(s: Settings, path: string)
    ensures var login := LoginRequest(LoginUrl(s), LoginPayload(s));
      var read1 := ReadRequest(ReadUrl(s, path), "T1");
      EnsureTokenStep(s, Session(None, [login, read1]), ExpiringTokenServer)
        == Outcome(Success("T2"), Session(Some("T2"), [login, read1, login]))
  {
    var login := LoginRequest(LoginUrl(s), LoginPayload(s));
    var read1 := ReadRequest(ReadUrl(s, path), "T1");
    CountLoginRead(login, read1);
    ExpiringTokenLogin(s, Session(None, [login, read1]));
    Snoc2(login, read1, login);
  }

  lemma CountLoginRead(l: Request, r: Request)
    requires l.LoginRequest? && r.ReadRequest?
    ensures Logins([l, r]) == 1
  {
    CountAppend([], l);
    CountAppend([l], r);
    Snoc1(l, r);
  }

  /** When the retry's login succeeds, the retry is one read with the new token. */
  lemma RetryAfterLogin(s: Settings, sess: Session, path: string, key: string, server: Server)
    requires EnsureTokenStep(s, sess.(token := None), server).result.Success?
    ensures var again := EnsureTokenStep(s, sess.(token := None), server);
      var read := ReadStep(s, again.session, path, key, again.result.value, server);
      Retry(s, sess, path, key, server) == Outcome(WrapResult(read.result), read.session)
  {
  }

  lemma CountLoginReadLoginRead(l1: Request, r1: Request, l2: Request, r2: Request)
    requires l1.LoginRequest? && l2.LoginRequest? && r1.ReadRequest? && r2.ReadRequest?
    ensures Logins([l1, r1, l2, r2]) == 2 && Reads([l1, r1, l2, r2]) == 2
  {
    CountAppend([], l1);
    CountAppend([l1], r1);
    Snoc1(l1, r1);
    CountAppend([l1, r1], l2);
    Snoc2(l1, r1, l2);
    CountAppend([l1, r1, l2], r2);
    Snoc3(l1, r1, l2, r2);
  }

  /** The caller gets "s3cr3t", after two logins and two reads, and the client holds "T2". */
  lemma ExpiredTokenIsRenewed(s: Settings, path: string)
    ensures var o := Fetch(s, Session(None, []), path, "password", ExpiringTokenServer);
      && o.result == Success("s3cr3t")
      && Logins(o.session.sent) == 2 && Reads(o.session.sent) == 2
      && o.session.token == Some("T2")
  {
    RenewalStartsRetry(s, path);
    RenewalRetrySucceeds(s, path);
    CountLoginReadLoginRead(LoginRequest(LoginUrl(s), LoginPayload(s)), ReadRequest(ReadUrl(s, path), "T1"),
                            LoginRequest(LoginUrl(s), LoginPayload(s)), ReadRequest(ReadUrl(s, path), "T2"));
  }

  // ---------------------------------------------------------------------------------------
  // The client object

  /** VaultAppRoleKvV2Client: fixed settings, its cache, and the token it updates in place. */
  class VaultAppRoleKvV2Client {
    const settings: Settings
    const cache: LruExpiringCache
    var clientToken: Option<string>
    /** The requests sent so far; the Server may answer according to them. */
    var sent: seq<Request>

    function Current(): Session
      reads this
    {
      Session(clientToken, sent)
    }

    ghost predicate Valid()
      reads this, cache
    {
      && cache.Valid()
      && cache.maxEntries == Capacity(settings)
      && clientToken != Some("")
    }

    /** A client over already-read settings: no token and an empty cache of Capacity entries. */
    constructor (settings: Settings)
      ensures Valid() && fresh(cache)
      ensures this.settings == settings && Current() == Session(None, []) && cache.Model() == Empty
    {
      this.settings := settings;
      cache := new LruExpiringCache(settings.maxEntries);
      clientToken := None;
      sent := [];
    }

    /** new VaultAppRoleKvV2Client(p): the configuration's failures, or a fresh client. */
    static method Open(p: Properties) returns (r: Result<VaultAppRoleKvV2Client, Failure>)
      ensures r.Success? <==> ParseSettings(p).Success?
      ensures r.Failure? ==> r.error == ParseSettings(p).error
      ensures r.Success? ==>
        && fresh(r.value) && r.value.Valid() && r.value.settings == ParseSettings(p).value
        && r.value.Current() == Session(None, []) && r.value.cache.Model() == Empty
    {
      var parsed := ParseSettings(p);
      if parsed.Failure? {
        return Failure(parsed.error);
      }
      var client := new VaultAppRoleKvV2Client(parsed.value);
      return Success(client);
    }

    /** capabilities(): only KV_READ. */
    function Capabilities(): (r: set<Capability>)
      ensures r == {KvRead}
    {
      KvOnly()
    }

    /** loginAppRole(): one POST; the stored token is not touched. */
    method LoginAppRole(server: Server) returns (r: Result<string, Failure>)
      modifies this
      ensures Outcome(r, Current()) == LoginStep(settings, old(Current()), server)
    {
      var request := LoginRequest(LoginUrl(settings), LoginPayload(settings));
      var reply := server(sent, request);
      sent := sent + [request];
      r := ClassifyLogin(reply);
    }

    /** ensureToken(): logs in only when the token is null or empty; returns the token held. */
    method EnsureToken(server: Server) returns (r: Result<string, Failure>)
      requires Valid()
      modifies this
      ensures Valid()
      ensures Outcome(r, Current()) == EnsureTokenStep(settings, old(Current()), server)
    {
      if clientToken.Some? && clientToken.value != "" {
        return Success(clientToken.value);
      }
      r := LoginAppRole(server);
      if r.Success? {
        clientToken := Some(r.value);
      }
    }

    /** readKv2Secret(path, key, token): one GET to the encoded path, classified. */
    method ReadKv2Secret(path: string, key: string, token: string, server: Server)
      returns (r: Result<string, Failure>)
      modifies this
      ensures Outcome(r, Current()) == ReadStep(settings, old(Current()), path, key, token, server)
    {
      var encoded := EncodePath(Some(path));
      var request := ReadRequest(settings.addr + "/v1/" + settings.mount + "/data/" + encoded, token);
      var reply := server(sent, request);
      sent := sent + [request];
      r := ClassifyRead(path, key, reply);
    }

    /**
     * getRequired(path, key), with the clock readings for the cache check (checkedAt) and for
     * the store (storedAt) passed in.
     */
    method GetRequired(path: string, key: string, server: Server, checkedAt: int, storedAt: int)
      returns (r: Result<string, Failure>)
      requires Valid()
      modifies this, cache
      ensures Valid()
      ensures Answer(r, cache.Model(), Current())
           == Serve(settings, old(cache.Model()), old(Current()), path, key, server, checkedAt, storedAt)
    {
      ghost var start := Current();
      ghost var before := cache.Model();
      var ck := CacheKey(path, key);
      ghost var probe := if settings.ttlMillis > 0 then Lookup(before, ck, checkedAt) else Read(None, before);
      if settings.ttlMillis > 0 {
        var cached := cache.Get(ck, checkedAt);
        if cached.Some? {
          assert probe == Read(cached, cache.Model());
          return Success(cached.value);
        }
      }
      assert probe == Read(None, cache.Model());
      r := FetchValue(path, key, server);
      ghost var fetched := Outcome(r, Current());
      assert fetched == Fetch(settings, start, path, key, server);
      StoreFetched(ck, r, storedAt);
    }

    /** The end of getRequired: a value fetched while the TTL is positive goes into the cache. */
    method StoreFetched(ck: string, r: Result<string, Failure>, storedAt: int)
      requires Valid()
      modifies cache
      ensures Valid()
      ensures Answer(r, cache.Model(), Current())
           == Store(settings, old(cache.Model()), ck, Outcome(r, Current()), storedAt)
    {
      if r.Success? && settings.ttlMillis > 0 {
        cache.Put(ck, r.value, ExpiresAt(settings, storedAt));
      }
    }

    /** The try block of getRequired: ensureToken, the read, and the one retry after a 403. */
    method FetchValue(path: string, key: string, server: Server) returns (r: Result<string, Failure>)
      requires Valid()
      modifies this
      ensures Valid()
      ensures Outcome(r, Current()) == Fetch(settings, old(Current()), path, key, server)
    {
      var token := EnsureToken(server);
      if token.Failure? {
        return Failure(Wrap(token.error));
      }
      var value := ReadKv2Secret(path, key, token.value, server);
      if value.Failure? && Retriable(value.error) {
        clientToken := None;
        token := EnsureToken(server);
        if token.Failure? {
          return Failure(Wrap(token.error));
        }
        value := ReadKv2Secret(path, key, token.value, server);
      }
      r := WrapResult(value);
    }

    /** close(): empties the cache and forgets the token. */
    method Close()
      requires Valid()
      modifies this, cache
      ensures Valid()
      ensures cache.Model() == Empty && clientToken == None && sent == old(sent)
    {
      cache.Clear();
      clientToken := None;
    }
  }
}
