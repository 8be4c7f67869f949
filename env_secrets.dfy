/**
 * EnvSecretsClient: a secret is the environment variable named after its path and key, with
 * '/', '-' and '.' turned into '_' and the whole name upper-cased. The environment is passed
 * in as a map from variable name to value.
 */
module EnvSecrets {
  import opened Wrappers
  import opened Text
  import opened Secrets

  /** The process environment: variable name to value. */
  type Environment = map<string, string>

  /** The separator normalisation the variable name applies to each character. */
  function Normalised(c: char): char
  {
    if c == '/' || c == '-' || c == '.' then '_' else c
  }

  /** The variable name: (path + "_" + key) with '/', '-', '.' replaced by '_', upper-cased. */
  function EnvName(path: string, key: string): string
  {
    ToUpper(ReplaceChar(ReplaceChar(ReplaceChar(path + "_" + key, '/', "_"), '-', "_"), '.', "_"))
  }

  /** Replacing a character by one character keeps the length and changes only that character. */
  lemma {:induction false} ReplaceCharOneByOne(s: string, target: char, replacement: char)
    ensures var r := ReplaceChar(s, target, [replacement]);
      && |r| == |s|
      && forall k :: 0 <= k < |s| ==> r[k] == if s[k] == target then replacement else s[k]
  {
    if s != [] {
      ReplaceCharOneByOne(s[1..], target, replacement);
    }
  }

  /**
   * The name is built character by character: each character of path + "_" + key, with
   * separators turned into '_', then upper-cased.
   */
  lemma EnvNameByChar(path: string, key: string)
    ensures var joined := path + "_" + key;
      var name := EnvName(path, key);
      && |name| == |path| + |key| + 1
      && forall k :: 0 <= k < |joined| ==> name[k] == AsciiUpper(Normalised(joined[k]))
  {
    var joined := path + "_" + key;
    var r1 := ReplaceChar(joined, '/', "_");
    var r2 := ReplaceChar(r1, '-', "_");
    var r3 := ReplaceChar(r2, '.', "_");
    ReplaceCharOneByOne(joined, '/', '_');
    ReplaceCharOneByOne(r1, '-', '_');
    ReplaceCharOneByOne(r2, '.', '_');
  }

  /** The name holds no '/', '-' or '.', and no lower-case ASCII letter. */
  lemma EnvNameHasNoSeparators(path: string, key: string)
    ensures var name := EnvName(path, key);
      forall k :: 0 <= k < |name| ==> name[k] != '/' && name[k] != '-' && name[k] != '.' && !('a' <= name[k] <= 'z')
  {
    EnvNameByChar(path, key);
  }

  /** Different paths can name the same variable: ("a/b", "c") and ("a-b", "c") both give A_B_C. */
  lemma EnvNameNotInjective()
    ensures EnvName("a/b", "c") == EnvName("a-b", "c") == "A_B_C"
  {
    EnvNameByChar("a/b", "c");
    EnvNameByChar("a-b", "c");
  }

  /**
   * EnvSecretsClient.getRequired: the variable's value exactly as set, or "Missing environment
   * secret: <name>" when it is unset or blank.
   */
  function GetRequired(env: Environment, path: string, key: string): (r: Result<string, Failure>)
    ensures var name := EnvName(path, key);
      && (r.Success? <==> name in env && Trim(env[name]) != "")
      && (r.Success? ==> r.value == env[name])
      && (r.Failure? ==> r.error == NotFound("Missing environment secret: " + name))
  {
    var name := EnvName(path, key);
    if name !in env || Trim(env[name]) == "" then Failure(NotFound("Missing environment secret: " + name))
    else Success(env[name])
  }

  /** A value found is not blank, and is returned with any surrounding blanks it has. */
  lemma GetRequiredKeepsBlanks(env: Environment, path: string, key: string, value: string)
    requires EnvName(path, key) in env && env[EnvName(path, key)] == " " + value + " "
    requires Trim(" " + value + " ") != ""
    ensures GetRequired(env, path, key) == Success(" " + value + " ")
  {
  }

  /** A blank value is as absent as an unset variable. */
  lemma GetRequiredBlankIsMissing(env: Environment, path: string, key: string)
    requires EnvName(path, key) in env
    requires forall k :: 0 <= k < |env[EnvName(path, key)]| ==> IsTrimmed(env[EnvName(path, key)][k])
    ensures GetRequired(env, path, key) == GetRequired(env - {EnvName(path, key)}, path, key)
    ensures GetRequired(env, path, key).Failure? && GetRequired(env, path, key).error.NotFound?
  {
    TrimEmptyIffBlank(env[EnvName(path, key)]);
  }

  /** capabilities(): only KV_READ. */
  function Capabilities(): (r: set<Capability>)
    ensures r == {KvRead}
  {
    KvOnly()
  }
}
