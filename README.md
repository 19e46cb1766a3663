# crtauth authentication plugin: configuration resolution

Helios's `crtauth` plugin registers a challenge-response authentication
scheme with the Helios master. On the server side it reads its settings
from the process environment, and it can fail with an
`IllegalArgumentException` that names the variable at fault. From those
settings it configures a crt-auth server: a server name, a secret, a token
lifetime, and an ordered list of public-key providers. The list holds a
key-file directory and/or an LDAP directory.

This project models that resolution in Dafny:

- `wrappers.dfy` (`Wrappers`): `Option` stands for Java's nullable reference
  and `Result` for "returns or throws".
- `java_int.dfy` (`JavaInt`): `Integer.parseInt` in radix 10, restricted to
  ASCII digits.
  - `ParseInt` states what the call accepts: an optional `+` or `-`, then at
    least one digit, and a value inside the 32-bit signed range.
  - `ParseIntLoop` follows the JDK's digit loop. That loop accumulates the
    value negatively and checks `multmin`/`limit` before each step.
  - `ParseIntLoop` is proved equal to `ParseInt`.
  - `FormatInt` (`Integer.toString`) is the inverse that the round-trip lemma
    uses.
- `crt_authentication_plugin.dfy` (`CrtAuth`): the environment helpers
  `getEnv`, `getRequiredEnv` and the two `getOptionalEnv` overloads.
  - `Resolve(env)` is the configuration `serverAuthentication()` produces,
    as a pure function.
  - The class `CrtAuthenticationPlugin` holds the environment it is given and
    has `SchemeName`, `ClientAuthentication` and `ServerAuthentication`.
    `ServerAuthentication` reads the variables in order and appends key
    providers one at a time, as the source adds them to its builder. It is
    proved equal to `Resolve`.
- `resolver_properties.dfy` (`ResolverProperties`): lemmas about `Resolve` for
  every environment. They cover error order, pass-through of values,
  provider order, conditional requiredness and locality.

The library objects appear only as descriptors:

- the crt-auth builder becomes `ServerConfig`;
- `FileKeyProvider` becomes `FileProvider(rootDir)`;
- `LdapKeyProvider` becomes
  `LdapProvider(LdapContextSource(url, anonymousReadOnly, cacheEnvironmentProperties), searchPath, fieldName)`.

Differences a reader might expect otherwise:

- The token lifetime is not checked to be non-negative. `Integer.parseInt`
  accepts `-5`, and so does the model.
- The not-numeric error carries only the variable's name, not its value,
  because the thrown message carries only the name.
- A required variable present with the empty string is accepted, because
  only the key's presence is tested. An optional key provider is switched
  on only by a non-empty value, because `isNullOrEmpty` is tested.

## Model

| member | source | states |
|---|---|---|
| `CrtAuth.GetEnv` | helios-crtauth/src/main/java/com/spotify/helios/auth/crt/CrtAuthenticationPlugin.java:94-99 | fails, naming the variable, exactly when it is required and not a key of the environment; otherwise yields the value when present (whatever it is) and null when absent |
| `CrtAuth.GetRequiredEnv` | helios-crtauth/src/main/java/com/spotify/helios/auth/crt/CrtAuthenticationPlugin.java:101-103 | succeeds exactly when the key is present, with its value verbatim (the empty string included); otherwise reports `Missing(name)` |
| `CrtAuth.GetOptionalEnvString` | helios-crtauth/src/main/java/com/spotify/helios/auth/crt/CrtAuthenticationPlugin.java:105-108 | the present value, even when empty; the default only when the key is absent |
| `CrtAuth.GetOptionalEnvInt` | helios-crtauth/src/main/java/com/spotify/helios/auth/crt/CrtAuthenticationPlugin.java:110-120 | the default when absent; when present, succeeds exactly when `Integer.parseInt` accepts the value and returns that value; a failure is `NotNumeric(name)`; a success is always a 32-bit int |
| `CrtAuth.IsSet` | helios-crtauth/src/main/java/com/spotify/helios/auth/crt/CrtAuthenticationPlugin.java:67-73 | a variable switches a key provider on exactly when `getEnv(name, false)` yields neither null nor the empty string (`!isNullOrEmpty`) |
| `CrtAuth.KeyProviders` | helios-crtauth/src/main/java/com/spotify/helios/auth/crt/CrtAuthenticationPlugin.java:67-88 | fails, with `Missing("CRTAUTH_LDAP_SEARCH_PATH")`, exactly when an LDAP URL is set and the search path is absent; otherwise at most two providers, the file provider before the LDAP one |
| `CrtAuth.Resolve` | helios-crtauth/src/main/java/com/spotify/helios/auth/crt/CrtAuthenticationPlugin.java:58-88 | a missing server name is always the error; any error is one of the four the method can throw; on success server name and secret are the environment's values and the lifetime is a 32-bit int. `ResolverProperties` proves the full failure order, the lifetime, both providers' conditions and contents, and locality about it |
| `CrtAuth.LdapContext` | helios-crtauth/src/main/java/com/spotify/helios/auth/crt/CrtAuthenticationPlugin.java:79-82 | the directory client uses the given URL, anonymous read-only access and no caching of environment properties |
| `CrtAuth.CrtAuthenticationPlugin.constructor` | helios-crtauth/src/main/java/com/spotify/helios/auth/crt/CrtAuthenticationPlugin.java:44-47 | the plugin keeps the environment it is given |
| `CrtAuth.CrtAuthenticationPlugin.SchemeName` | helios-crtauth/src/main/java/com/spotify/helios/auth/crt/CrtAuthenticationPlugin.java:49-52 | the scheme name is `"crtauth"` whatever the environment |
| `CrtAuth.CrtAuthenticationPlugin.ClientAuthentication` | helios-crtauth/src/main/java/com/spotify/helios/auth/crt/CrtAuthenticationPlugin.java:122-125 | no client authentication is ever supplied (null) |
| `CrtAuth.CrtAuthenticationPlugin.ServerAuthentication` | helios-crtauth/src/main/java/com/spotify/helios/auth/crt/CrtAuthenticationPlugin.java:54-92 | reading the variables in order and appending providers to the builder step by step yields exactly `Resolve(environment)` for the environment the plugin holds |
| `ResolverProperties.ResolveReportsFirstProblem` | helios-crtauth/src/main/java/com/spotify/helios/auth/crt/CrtAuthenticationPlugin.java:58-74 | resolution fails exactly when one of the checks fails (server name, secret, lifetime, search path when LDAP is on), and it reports the first failing one in that order; a missing server name is always the error reported |
| `ResolverProperties.ResolvedSettings` | helios-crtauth/src/main/java/com/spotify/helios/auth/crt/CrtAuthenticationPlugin.java:58-65 | on success, server name and secret are the environment's values verbatim; the lifetime is 540 when unset and the parsed value otherwise, always inside the 32-bit range |
| `ResolverProperties.TokenLifetimeFromText` | helios-crtauth/src/main/java/com/spotify/helios/auth/crt/CrtAuthenticationPlugin.java:60 | with server name and secret present, text that `Integer.parseInt` rejects fails with `NotNumeric("CRTAUTH_TOKEN_LIFETIME_SECS")` whatever the LDAP settings; text it accepts (negatives included) resolves, when the LDAP settings are complete, to that lifetime with the given server name and secret |
| `ResolverProperties.OnlyRequiredSettings` | helios-crtauth/src/main/java/com/spotify/helios/auth/crt/CrtAuthenticationPlugin.java:58-65 | with only server name and secret set, the result has lifetime 540 and no key providers |
| `ResolverProperties.ProvidersOrdered` | helios-crtauth/src/main/java/com/spotify/helios/auth/crt/CrtAuthenticationPlugin.java:67-88 | at most two providers; of any two, the earlier is the file provider and the later the LDAP one, so there is at most one of each kind and file comes first |
| `ResolverProperties.FileProviderIffKeyRootDir` | helios-crtauth/src/main/java/com/spotify/helios/auth/crt/CrtAuthenticationPlugin.java:67-70 | a file provider with a given root is attached if and only if `CRTAUTH_KEY_ROOT_DIR` is present, non-empty and equal to that root |
| `ResolverProperties.LdapProviderIffUrl` | helios-crtauth/src/main/java/com/spotify/helios/auth/crt/CrtAuthenticationPlugin.java:72-88 | an LDAP provider is attached if and only if `CRTAUTH_LDAP_URL` is present and non-empty; it has that URL, anonymous read-only and no caching, the search path verbatim, and the field name verbatim or `"sshPublicKey"` when unset |
| `ResolverProperties.SearchPathRequiredWithLdap` | helios-crtauth/src/main/java/com/spotify/helios/auth/crt/CrtAuthenticationPlugin.java:72-74 | with an LDAP URL set, server name and secret present and the lifetime absent or numeric, a missing search path fails with `Missing("CRTAUTH_LDAP_SEARCH_PATH")` |
| `ResolverProperties.LdapSettingsIgnoredWithoutUrl` | helios-crtauth/src/main/java/com/spotify/helios/auth/crt/CrtAuthenticationPlugin.java:72-77 | without a non-empty LDAP URL, the search path and key field name never affect the outcome, whether absent or set to anything |
| `ResolverProperties.ResolveReadsOnlyItsVariables` | helios-crtauth/src/main/java/com/spotify/helios/auth/crt/CrtAuthenticationPlugin.java:94-98 | two environments that agree on the seven `CRTAUTH_` variables resolve alike; nothing else in the map matters |
| `ResolverProperties.BothProvidersExample` | helios-crtauth/src/main/java/com/spotify/helios/auth/crt/CrtAuthenticationPlugin.java:67-88 | with a key directory and a complete LDAP configuration, the providers are exactly the file provider and then the LDAP provider with field name `"sshPublicKey"` |
| `JavaInt.ParseInt` | helios-crtauth/src/main/java/com/spotify/helios/auth/crt/CrtAuthenticationPlugin.java:116 | an accepted value lies in the 32-bit signed range and is made of at least one digit after an optional sign |
| `JavaInt.ParseIntLoop` | helios-crtauth/src/main/java/com/spotify/helios/auth/crt/CrtAuthenticationPlugin.java:116 | the JDK's negative-accumulating loop, with its `multmin`/`limit` overflow checks, returns exactly `ParseInt(s)` |
| `JavaInt.ParseFormat` | helios-crtauth/src/main/java/com/spotify/helios/auth/crt/CrtAuthenticationPlugin.java:116 | parsing the decimal rendering of any integer gives it back if and only if it is a 32-bit int, and is rejected otherwise |
| `JavaInt.ParseIntLeadingZero` | helios-crtauth/src/main/java/com/spotify/helios/auth/crt/CrtAuthenticationPlugin.java:116 | a leading zero does not change what is parsed or whether it is accepted |
| `JavaInt.ParseIntSigned` | helios-crtauth/src/main/java/com/spotify/helios/auth/crt/CrtAuthenticationPlugin.java:116 | a leading `+` changes nothing; a leading `-` negates, and is accepted up to magnitude 2147483648 |
| `JavaInt.ParseIntRejectsNonDigit` | helios-crtauth/src/main/java/com/spotify/helios/auth/crt/CrtAuthenticationPlugin.java:116 | any character other than a digit, apart from a leading sign, makes the parse fail |
| `JavaInt.ParseIntRejectsNoDigits` | helios-crtauth/src/main/java/com/spotify/helios/auth/crt/CrtAuthenticationPlugin.java:116 | the empty string and a sign alone are rejected |
| `JavaInt.ParseIntExamples` | helios-crtauth/src/main/java/com/spotify/helios/auth/crt/CrtAuthenticationPlugin.java:116 | `"120"` and `"+120"` read as 120, `"-5"` as -5, and `"abc"` is rejected |
| `JavaInt.ParseIntLimits` | helios-crtauth/src/main/java/com/spotify/helios/auth/crt/CrtAuthenticationPlugin.java:116 | `"-2147483648"` reads as the least int, and `"2147483648"` is rejected |

## Left out

- `CrtAuthServer.Builder.build()`, `CrtTokenAuthenticator` and `CrtServerAuthentication` are library code. `ServerAuthentication` returns the `ServerConfig` the builder holds instead of the wrapped server. The crt-auth challenge/response protocol (challenges, signatures, tokens, lifetime enforcement) is not part of this model.
- `FileKeyProvider`, `LdapContextSource`, `LdapTemplate` and `LdapKeyProvider` do filesystem and directory I/O. Each is represented only by the settings it is constructed with.
- `secret.getBytes()` depends on the platform's default charset. The secret is kept as the environment's string.
- The Java plugin keeps a reference to the caller's `Map` and reads it only when `serverAuthentication()` runs, so a change the caller makes to that map after construction, or between two calls, changes the outcome. The model's `CrtAuthenticationPlugin.environment` is a value taken at construction, so that aliasing is not modelled.
- The no-argument constructor reads the process-global `System.getenv()`. Only the constructor that takes the environment is modelled. Plugin discovery through `@AutoService` is left out too.
- A map entry whose value is Java `null` passes the presence check but is read as absent. The model's environment is a `map<string, string>`, which has no null values.
- `Integer.parseInt` also accepts non-ASCII Unicode decimal digits (`Character.digit`). The model accepts ASCII `0`-`9` only. `Integer.parseInt` and `Integer.toString` are JDK code, modelled from their documented behaviour.
- The exceptions' message text is reduced to the variable it names (`Missing(name)`, `NotNumeric(name)`).
