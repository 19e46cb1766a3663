/** What the crtauth plugin's configuration resolution promises, stated over
    `CrtAuth.Resolve` for every environment. */
module ResolverProperties {
  import opened Wrappers
  import opened JavaInt
  import opened CrtAuth

  /** The first problem in the order the plugin checks: server name, secret,
      token lifetime, then (only with an LDAP URL set) the search path. */
  function FirstProblem(env: map<string, string>): Option<ConfigError> {
    if ServerNameVar !in env then Some(Missing(ServerNameVar))
    else if SecretVar !in env then Some(Missing(SecretVar))
    else if TokenLifetimeVar in env && ParseInt(env[TokenLifetimeVar]).None? then
      Some(NotNumeric(TokenLifetimeVar))
    else if IsSet(env, LdapUrlVar) && LdapSearchPathVar !in env then Some(Missing(LdapSearchPathVar))
    else None
  }

  /** Resolution fails exactly when some check fails, and then it reports the
      first failing check; so a missing server name is reported whatever else
      is wrong. */
  lemma ResolveReportsFirstProblem(env: map<string, string>)
    ensures Resolve(env).Failure? <==> FirstProblem(env).Some?
    ensures Resolve(env).Failure? ==> Resolve(env).error == FirstProblem(env).value
    ensures ServerNameVar !in env ==> Resolve(env) == Failure(Missing(ServerNameVar))
  {
  }

  /** The token lifetime the server gets when resolution succeeds. */
  function ExpectedLifetime(env: map<string, string>): int {
    if TokenLifetimeVar in env && ParseInt(env[TokenLifetimeVar]).Some? then
      ParseInt(env[TokenLifetimeVar]).value
    else DefaultTokenLifetimeSecs
  }

  /** On success, server name and secret are passed through verbatim (the
      empty string included), and the lifetime is 540 when unset and the
      `Integer.parseInt` value otherwise, always a 32-bit int. */
  lemma ResolvedSettings(env: map<string, string>)
    requires Resolve(env).Success?
    ensures ServerNameVar in env && Resolve(env).value.serverName == env[ServerNameVar]
    ensures SecretVar in env && Resolve(env).value.secret == env[SecretVar]
    ensures Resolve(env).value.tokenLifetimeSecs == ExpectedLifetime(env)
    ensures TokenLifetimeVar !in env ==> Resolve(env).value.tokenLifetimeSecs == 540
    ensures InInt32(Resolve(env).value.tokenLifetimeSecs)
  {
  }

  /** The providers always come in the order file, then LDAP, with at most
      one of each kind. */
  lemma ProvidersOrdered(env: map<string, string>)
    requires Resolve(env).Success?
    ensures var ps := Resolve(env).value.keyProviders;
      |ps| <= 2 && forall i, j :: 0 <= i < j < |ps| ==> ps[i].FileProvider? && ps[j].LdapProvider?
  {
  }

  /** A file provider rooted at the key directory is attached exactly when
      `CRTAUTH_KEY_ROOT_DIR` is present and non-empty. */
  lemma FileProviderIffKeyRootDir(env: map<string, string>, rootDir: string)
    requires Resolve(env).Success?
    ensures FileProvider(rootDir) in Resolve(env).value.keyProviders <==>
      IsSet(env, KeyRootDirVar) && env[KeyRootDirVar] == rootDir
  {
  }

  /** The LDAP provider that a fully configured environment yields. */
  function ExpectedLdapProvider(env: map<string, string>): KeyProvider
    requires LdapUrlVar in env && LdapSearchPathVar in env
  {
    var fieldName := if LdapKeyFieldNameVar in env then env[LdapKeyFieldNameVar] else "sshPublicKey";
    LdapProvider(LdapContextSource(env[LdapUrlVar], true, false), env[LdapSearchPathVar], fieldName)
  }

  /** An LDAP provider is attached exactly when `CRTAUTH_LDAP_URL` is present
      and non-empty; it then uses that URL anonymously, read-only and without
      caching, the search path verbatim (even empty) and the key field name
      verbatim or "sshPublicKey" when unset. */
  lemma LdapProviderIffUrl(env: map<string, string>)
    requires Resolve(env).Success?
    ensures (exists p :: p in Resolve(env).value.keyProviders && p.LdapProvider?) <==> IsSet(env, LdapUrlVar)
    ensures forall p :: p in Resolve(env).value.keyProviders && p.LdapProvider? ==>
      LdapUrlVar in env && LdapSearchPathVar in env && p == ExpectedLdapProvider(env)
  {
    var ps := Resolve(env).value.keyProviders;
    if IsSet(env, LdapUrlVar) {
      assert ps[|ps| - 1].LdapProvider?;
    }
  }

  /** With an LDAP URL set, a missing search path is an error even when
      everything else is in order. */
  lemma SearchPathRequiredWithLdap(env: map<string, string>)
    requires ServerNameVar in env && SecretVar in env
    requires TokenLifetimeVar in env ==> ParseInt(env[TokenLifetimeVar]).Some?
    requires IsSet(env, LdapUrlVar) && LdapSearchPathVar !in env
    ensures Resolve(env) == Failure(Missing(LdapSearchPathVar))
  {
  }

  /** Two environments agree on `name` when both lack it or both map it to
      the same value. */
  predicate AgreeOn(env: map<string, string>, env': map<string, string>, name: string) {
    (name in env <==> name in env') && (name in env ==> env[name] == env'[name])
  }

  /** Resolution looks only at the CRTAUTH_ variables: whatever else the
      environment holds is irrelevant, and equal maps give equal results. */
  lemma ResolveReadsOnlyItsVariables(env: map<string, string>, env': map<string, string>)
    requires forall n :: n in CrtAuthVars ==> AgreeOn(env, env', n)
    ensures Resolve(env) == Resolve(env')
  {
  }

  /** The variables that matter when no LDAP URL is set. */
  const NonLdapVars: set<string> := {ServerNameVar, SecretVar, TokenLifetimeVar, KeyRootDirVar, LdapUrlVar}

  /** Without an LDAP URL (absent or empty), neither the search path nor the
      key field name affects the outcome: any two environments that agree on
      the other variables resolve alike. */
  lemma LdapSettingsIgnoredWithoutUrl(env: map<string, string>, env': map<string, string>)
    requires !IsSet(env, LdapUrlVar)
    requires forall n :: n in NonLdapVars ==> AgreeOn(env, env', n)
    ensures Resolve(env) == Resolve(env')
  {
  }

  /** With only a server name and a secret, resolution succeeds with the
      default lifetime and no key providers. */
  lemma OnlyRequiredSettings(serverName: string, secret: string)
    ensures Resolve(map[ServerNameVar := serverName, SecretVar := secret]) ==
      Success(ServerConfig(serverName, secret, 540, []))
  {
  }

  /** A present token lifetime is exactly what `Integer.parseInt` reads,
      negative values included; text it rejects is reported as not numeric. */
  lemma TokenLifetimeFromText(env: map<string, string>, text: string)
    requires ServerNameVar in env && SecretVar in env
    ensures ParseInt(text).Some? && (IsSet(env, LdapUrlVar) ==> LdapSearchPathVar in env) ==>
      var r := Resolve(env[TokenLifetimeVar := text]);
      r.Success? && r.value.serverName == env[ServerNameVar] && r.value.secret == env[SecretVar] &&
      r.value.tokenLifetimeSecs == ParseInt(text).value
    ensures ParseInt(text).None? ==> Resolve(env[TokenLifetimeVar := text]) == Failure(NotNumeric(TokenLifetimeVar))
  {
  }

  /** Key directory and LDAP both configured: the file provider comes first,
      and the LDAP key field name defaults to "sshPublicKey". */
  lemma BothProvidersExample(env: map<string, string>, rootDir: string, url: string, searchPath: string)
    requires ServerNameVar in env && SecretVar in env && TokenLifetimeVar !in env
    requires LdapKeyFieldNameVar !in env && rootDir != "" && url != ""
    ensures var full := env[KeyRootDirVar := rootDir][LdapUrlVar := url][LdapSearchPathVar := searchPath];
      Resolve(full).Success? &&
      Resolve(full).value.keyProviders ==
        [FileProvider(rootDir), LdapProvider(LdapContextSource(url, true, false), searchPath, "sshPublicKey")]
  {
  }
}
