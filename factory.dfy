/**
 * SecretsClientFactory.create: picks the provider named by secrets.provider (default "vault"),
 * trimmed and lower-cased.
 */
module Factory {
  import opened Wrappers
  import opened Text
  import opened Secrets
  import opened Config
  import opened VaultClient

  /** The clients the library has; the factory builds the first two only. */
  datatype Provider =
    | VaultProvider(settings: Settings)
    | EnvProvider
    | PropertiesFileProvider

  /** The provider name as the factory compares it. */
  function ProviderName(p: Properties): string
  {
    ToLower(Get(p, "secrets.provider", "vault"))
  }

  /**
   * create(p): "vault" and "openbao" build the Vault client (with its configuration failures),
   * "env" the environment client, anything else fails with "Unknown secrets.provider: <name>".
   */
  function Create(p: Properties): (r: Result<Provider, Failure>)
    ensures var name := ProviderName(p);
      && ((name == "vault" || name == "openbao") ==>
            match ParseSettings(p)
            case Success(settings) => r == Success(VaultProvider(settings))
            case Failure(e) => r == Failure(e))
      && (name == "env" ==> r == Success(EnvProvider))
      && (name != "vault" && name != "openbao" && name != "env" ==>
            r == Failure(SecretError("Unknown secrets.provider: " + name)))
  {
    var provider := ProviderName(p);
    if provider == "vault" || provider == "openbao" then
      match ParseSettings(p)
      case Success(settings) => Success(VaultProvider(settings))
      case Failure(e) => Failure(e)
    else if provider == "env" then Success(EnvProvider)
    else Failure(SecretError("Unknown secrets.provider: " + provider))
  }

  /** No setting makes the factory build the properties-file client. */
  lemma NeverPropertiesFile(p: Properties)
    ensures Create(p).Success? ==> !Create(p).value.PropertiesFileProvider?
  {
  }

  /** Without secrets.provider the Vault client is built. */
  lemma DefaultIsVault(p: Properties)
    requires "secrets.provider" !in p
    ensures ParseSettings(p).Success? ==> Create(p) == Success(VaultProvider(ParseSettings(p).value))
    ensures ParseSettings(p).Failure? ==> Create(p) == Failure(ParseSettings(p).error)
  {
    DefaultName(p);
  }

  /** Setting or removing secrets.provider leaves every other setting as it was. */
  lemma ProviderOnlyChangesItself(p: Properties, v: string, key: string)
    requires key != "secrets.provider"
    ensures SameSetting(p["secrets.provider" := v], p - {"secrets.provider"}, key)
  {
  }

  /** The Vault settings never read secrets.provider. */
  lemma ParseSettingsIgnoresProvider(p: Properties, v: string)
    ensures ParseSettings(p["secrets.provider" := v]) == ParseSettings(p - {"secrets.provider"})
  {
    ProviderOnlyChangesItself(p, v, AddrKey);
    ProviderOnlyChangesItself(p, v, MountKey);
    ProviderOnlyChangesItself(p, v, LoginPathKey);
    ProviderOnlyChangesItself(p, v, RoleIdKey);
    ProviderOnlyChangesItself(p, v, SecretIdKey);
    ProviderOnlyChangesItself(p, v, TimeoutKey);
    ProviderOnlyChangesItself(p, v, TtlKey);
    ProviderOnlyChangesItself(p, v, MaxEntriesKey);
    ParseSettingsReadsOnly(p["secrets.provider" := v], p - {"secrets.provider"});
  }

  /**
   * Only the trimmed, lower-cased value matters: two values that agree once trimmed and
   * lower-cased select the same client.
   */
  lemma SelectionIgnoresCaseAndBlanks(p: Properties, v1: string, v2: string)
    requires ToLower(Trim(v1)) == ToLower(Trim(v2))
    ensures Create(p["secrets.provider" := v1]) == Create(p["secrets.provider" := v2])
  {
    ParseSettingsIgnoresProvider(p, v1);
    ParseSettingsIgnoresProvider(p, v2);
  }

  /** Without secrets.provider the name compared is "vault". */
  lemma DefaultName(p: Properties)
    requires "secrets.provider" !in p
    ensures ProviderName(p) == "vault"
  {
    ToLowerOfLowerCase("vault");
  }

  /** "openbao", in any case and with any surrounding blanks, is another name for the Vault client. */
  lemma OpenBaoIsVault(p: Properties, v: string)
    requires ToLower(Trim(v)) == "openbao"
    ensures Create(p["secrets.provider" := v]) == Create(p - {"secrets.provider"})
  {
    ParseSettingsIgnoresProvider(p, v);
    DefaultName(p - {"secrets.provider"});
  }

  /** A blank secrets.provider is not the default: it names the unknown provider "". */
  lemma BlankProviderIsUnknown(p: Properties, v: string)
    requires Trim(v) == ""
    ensures Create(p["secrets.provider" := v]) == Failure(SecretError("Unknown secrets.provider: "))
  {
    var p1 := p["secrets.provider" := v];
    var name := ProviderName(p1);
    assert name == [] by {
      assert Get(p1, "secrets.provider", "vault") == [];
    }
    assert name != "vault" && name != "openbao" && name != "env";
    assert "Unknown secrets.provider: " + name == "Unknown secrets.provider: ";
  }

  /** "ENV", "env" or " Env " select the environment client whatever else is configured. */
  lemma EnvSelected(p: Properties, v: string)
    requires ToLower(Trim(v)) == "env"
    ensures Create(p["secrets.provider" := v]) == Success(EnvProvider)
  {
  }
}
