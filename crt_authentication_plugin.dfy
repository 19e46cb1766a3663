/** The crtauth authentication plugin: it reads its configuration from an
    environment (a map from variable name to value) and resolves it into the
    settings of a crt-auth server together with an ordered list of public-key
    providers, or fails naming the variable at fault.

    The crt-auth server, its builder and the key providers are library
    objects; here they appear only as the descriptors they are built from. */
module CrtAuth {
  import opened Wrappers
  import opened JavaInt

  const ServerNameVar: string := "CRTAUTH_SERVERNAME"
  const SecretVar: string := "CRTAUTH_SECRET"
  const TokenLifetimeVar: string := "CRTAUTH_TOKEN_LIFETIME_SECS"
  const KeyRootDirVar: string := "CRTAUTH_KEY_ROOT_DIR"
  const LdapUrlVar: string := "CRTAUTH_LDAP_URL"
  const LdapSearchPathVar: string := "CRTAUTH_LDAP_SEARCH_PATH"
  const LdapKeyFieldNameVar: string := "CRTAUTH_LDAP_KEY_FIELDNAME"

  /** Every variable the plugin ever looks up. */
  const CrtAuthVars: set<string> := {ServerNameVar, SecretVar, TokenLifetimeVar,
    KeyRootDirVar, LdapUrlVar, LdapSearchPathVar, LdapKeyFieldNameVar}

  const DefaultTokenLifetimeSecs: int := 540
  const DefaultLdapKeyFieldName: string := "sshPublicKey"
  const CrtAuthSchemeName: string := "crtauth"

  /** The IllegalArgumentException the resolver throws, reduced to the
      variable it names. */
  datatype ConfigError =
    | Missing(name: string)     // "Environment variable <name> is required"
    | NotNumeric(name: string)  // "Value for <name> is not numeric"

  /** The settings given to the directory client: the URL, anonymous
      read-only access, and no caching of environment properties. */
  datatype LdapContextSource = LdapContextSource(
    url: string, anonymousReadOnly: bool, cacheEnvironmentProperties: bool)

  /** A source of users' public keys: a directory of key files, or an LDAP
      search under `searchPath` reading the attribute `fieldName`. */
  datatype KeyProvider =
    | FileProvider(rootDir: string)
    | LdapProvider(contextSource: LdapContextSource, searchPath: string, fieldName: string)

  /** What the crt-auth server builder has been given when `build()` runs. */
  datatype ServerConfig = ServerConfig(
    serverName: string,
    secret: string,
    tokenLifetimeSecs: int,
    keyProviders: seq<KeyProvider>)

  /** Stand-in for the host framework's client-side authentication, which
      this plugin never supplies. */
  datatype ClientAuthenticator = ClientAuthenticator

  /** `getEnv(name, required)`: a required variable must be a key of the
      environment, whatever its value; otherwise the lookup yields the value
      or null. */
  function GetEnv(env: map<string, string>, name: string, required: bool)
    : (r: Result<Option<string>, ConfigError>)
    ensures r.Failure? <==> required && name !in env
    ensures r.Failure? ==> r.error == Missing(name)
    ensures r.Success? ==> (r.value.Some? <==> name in env)
    ensures r.Success? && name in env ==> r.value == Some(env[name])
  {
    if required && name !in env then Failure(Missing(name))
    else if name in env then Success(Some(env[name]))
    else Success(None)
  }

  /** `getRequiredEnv(name)`: the value, possibly empty, of a variable that
      must be present. */
  function GetRequiredEnv(env: map<string, string>, name: string): (r: Result<string, ConfigError>)
    ensures r.Success? <==> name in env
    ensures r.Success? ==> r.value == env[name]
    ensures r.Failure? ==> r.error == Missing(name)
  {
    var defined :- GetEnv(env, name, true);
    Success(defined.GetOr(""))
  }

  /** `getOptionalEnv(name, String defaultValue)`: the value verbatim, even
      when empty, and the default only when the variable is absent. */
  function GetOptionalEnvString(env: map<string, string>, name: string, default: string): (r: string)
    ensures name in env ==> r == env[name]
    ensures name !in env ==> r == default
  {
    match GetEnv(env, name, false)
    case Success(defined) => defined.GetOr(default)
    case Failure(_) => default
  }

  /** `getOptionalEnv(name, int defaultValue)`: the default when absent,
      otherwise the `Integer.parseInt` value, and a NotNumeric error naming
      the variable when that parse throws. */
  function GetOptionalEnvInt(env: map<string, string>, name: string, default: int)
    : (r: Result<int, ConfigError>)
    requires InInt32(default)
    ensures r.Success? ==> InInt32(r.value)
    ensures name !in env ==> r == Success(default)
    ensures name in env ==> (r.Success? <==> ParseInt(env[name]).Some?)
    ensures name in env && r.Success? ==> r.value == ParseInt(env[name]).value
    ensures r.Failure? ==> r.error == NotNumeric(name)
  {
    match GetEnv(env, name, false)
    case Failure(_) => Success(default)
    case Success(defined) =>
      match defined
      case None => Success(default)
      case Some(text) =>
        match ParseInt(text)
        case Some(v) => Success(v)
        case None => Failure(NotNumeric(name))
  }

  /** `!isNullOrEmpty(getEnv(name, false))`: the variable switches a key
      provider on only when present with a non-empty value. */
  predicate IsSet(env: map<string, string>, name: string)
    ensures IsSet(env, name) <==>
      GetEnv(env, name, false) != Success(None) && GetEnv(env, name, false) != Success(Some(""))
  {
    name in env && env[name] != ""
  }

  /** The directory client built for an LDAP URL. */
  function LdapContext(url: string): (c: LdapContextSource)
    ensures c.url == url && c.anonymousReadOnly && !c.cacheEnvironmentProperties
  {
    LdapContextSource(url, true, false)
  }

  /** The key providers the server is given, in the order they are added;
      the LDAP search path is required only once an LDAP URL is set. */
  function KeyProviders(env: map<string, string>): (r: Result<seq<KeyProvider>, ConfigError>)
    ensures r.Failure? <==> IsSet(env, LdapUrlVar) && LdapSearchPathVar !in env
    ensures r.Failure? ==> r.error == Missing(LdapSearchPathVar)
    ensures r.Success? ==> |r.value| <= 2
    ensures r.Success? ==> forall i, j :: 0 <= i < j < |r.value| ==>
      r.value[i].FileProvider? && r.value[j].LdapProvider?
  {
    var files := if IsSet(env, KeyRootDirVar) then [FileProvider(env[KeyRootDirVar])] else [];
    if !IsSet(env, LdapUrlVar) then Success(files)
    else
      var searchPath :- GetRequiredEnv(env, LdapSearchPathVar);
      var fieldName := GetOptionalEnvString(env, LdapKeyFieldNameVar, DefaultLdapKeyFieldName);
      Success(files + [LdapProvider(LdapContext(env[LdapUrlVar]), searchPath, fieldName)])
  }

  /** The configuration `serverAuthentication()` resolves, or the error it
      throws: server name, secret and token lifetime are read in that order,
      then the key providers. */
  function Resolve(env: map<string, string>): (r: Result<ServerConfig, ConfigError>)
    ensures ServerNameVar !in env ==> r == Failure(Missing(ServerNameVar))
    ensures r.Failure? ==> r.error in {Missing(ServerNameVar), Missing(SecretVar),
      NotNumeric(TokenLifetimeVar), Missing(LdapSearchPathVar)}
    ensures r.Success? ==> ServerNameVar in env && r.value.serverName == env[ServerNameVar]
    ensures r.Success? ==> SecretVar in env && r.value.secret == env[SecretVar]
    ensures r.Success? ==> InInt32(r.value.tokenLifetimeSecs)
  {
    var serverName :- GetRequiredEnv(env, ServerNameVar);
    var secret :- GetRequiredEnv(env, SecretVar);
    var tokenLifetimeSecs :- GetOptionalEnvInt(env, TokenLifetimeVar, DefaultTokenLifetimeSecs);
    var keyProviders :- KeyProviders(env);
    Success(ServerConfig(serverName, secret, tokenLifetimeSecs, keyProviders))
  }

  /** The plugin object, holding the environment it was constructed with. */
  class CrtAuthenticationPlugin {
    const environment: map<string, string>

    constructor (environment: map<string, string>)
      ensures this.environment == environment
    {
      this.environment := environment;
    }

    /** The scheme the plugin registers under, whatever the environment. */
    function SchemeName(): (name: string)
      ensures name == CrtAuthSchemeName
    {
      CrtAuthSchemeName
    }

    /** The plugin serves only the server side: it never supplies client
        authentication (Java's null). */
    function ClientAuthentication(): (client: Option<ClientAuthenticator>)
      ensures client.None?
    {
      None
    }

    /** `serverAuthentication()`: reads the environment variable by variable
        and adds key providers to the builder one at a time. The environment
        here is the value the plugin was constructed with; see README for the
        aliasing this leaves out. */
    method ServerAuthentication() returns (r: Result<ServerConfig, ConfigError>)
      ensures r == Resolve(environment)
    {
      var serverName :- GetRequiredEnv(environment, ServerNameVar);
      var secret :- GetRequiredEnv(environment, SecretVar);
      var tokenLifetimeSecs :- GetOptionalEnvInt(environment, TokenLifetimeVar, DefaultTokenLifetimeSecs);

      var keyProviders: seq<KeyProvider> := [];

      var keyRootDir := GetEnv(environment, KeyRootDirVar, false).value;
      if keyRootDir.Some? && keyRootDir.value != "" {
        keyProviders := keyProviders + [FileProvider(keyRootDir.value)];
      }

      ghost var files := keyProviders;
      assert files == if IsSet(environment, KeyRootDirVar) then [FileProvider(environment[KeyRootDirVar])] else [];
      var ldapUrl := GetEnv(environment, LdapUrlVar, false).value;
      assert ldapUrl.Some? && ldapUrl.value != "" <==> IsSet(environment, LdapUrlVar);
      if ldapUrl.Some? && ldapUrl.value != "" {
        var ldapSearchPath :- GetRequiredEnv(environment, LdapSearchPathVar);
        var ldapFieldNameOfKey := GetOptionalEnvString(environment, LdapKeyFieldNameVar, DefaultLdapKeyFieldName);
        var contextSource := LdapContext(ldapUrl.value);
        keyProviders := keyProviders + [LdapProvider(contextSource, ldapSearchPath, ldapFieldNameOfKey)];
      }

      r := Success(ServerConfig(serverName, secret, tokenLifetimeSecs, keyProviders));
    }
  }
}
