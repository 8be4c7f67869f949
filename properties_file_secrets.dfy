/**
 * PropertiesFileSecretsClient: secrets kept in a .properties file under keys "<path>.<key>".
 * Reading the file is outside the model: the files that can be read are passed in as a map
 * from file path to their loaded properties.
 */
module PropertiesFileSecrets {
  import opened Wrappers
  import opened Text
  import opened Secrets
  import opened Config

  /** The key a secret is stored under. */
  function PropKey(path: string, key: string): (r: string)
    ensures |r| == |path| + |key| + 1 && r[..|path|] == path && r[|path|] == '.' && r[|path| + 1..] == key
  {
    path + "." + key
  }

  /** Keys are ambiguous once the path or the key holds a '.': ("a.b", "c") and ("a", "b.c") meet. */
  lemma PropKeyCollides()
    ensures PropKey("a.b", "c") == PropKey("a", "b.c")
  {
  }

  /** getRequired over the loaded properties: the trimmed value, or a not-found naming the file. */
  function Lookup(props: Properties, filePath: string, path: string, key: string): (r: Result<string, Failure>)
    ensures r.Failure? <==> Missing(props, PropKey(path, key))
    ensures r.Failure? ==>
      r.error == NotFound("Missing property secret: " + PropKey(path, key) + " in file: " + filePath)
    ensures r.Success? ==> r.value == Trim(props[PropKey(path, key)])
  {
    var propKey := PropKey(path, key);
    if propKey !in props || Trim(props[propKey]) == "" then
      Failure(NotFound("Missing property secret: " + propKey + " in file: " + filePath))
    else Success(Trim(props[propKey]))
  }

  /** A value found is never empty and has no blanks around it. */
  lemma LookupTrimmed(props: Properties, filePath: string, path: string, key: string)
    requires Lookup(props, filePath, path, key).Success?
    ensures var v := Lookup(props, filePath, path, key).value;
      v != "" && Trim(v) == v && !IsTrimmed(v[0]) && !IsTrimmed(v[|v| - 1])
  {
    ReqValueIsTrimmed(props, PropKey(path, key));
  }

  /** With nothing loaded every lookup is a not-found. */
  lemma EmptyFindsNothing(filePath: string, path: string, key: string)
    ensures Lookup(map[], filePath, path, key)
         == Failure(NotFound("Missing property secret: " + PropKey(path, key) + " in file: " + filePath))
  {
  }

  /** The client keeps the path it read and the properties it loaded; close() empties the latter. */
  class PropertiesFileSecretsClient {
    const filePath: string
    var props: Properties

    constructor (filePath: string, props: Properties)
      ensures this.filePath == filePath && this.props == props
    {
      this.filePath := filePath;
      this.props := props;
    }

    /**
     * new PropertiesFileSecretsClient(config): secrets.file.path is required; a file that
     * cannot be read fails with "Failed to load secrets file: <path>".
     */
    static method Open(config: Properties, files: map<string, Properties>)
      returns (r: Result<PropertiesFileSecretsClient, Failure>)
      ensures var path := Req(config, "secrets.file.path");
        && (path.Failure? ==> r == Failure(path.error))
        && (path.Success? && path.value !in files ==>
              r == Failure(SecretError("Failed to load secrets file: " + path.value)))
        && (path.Success? && path.value in files ==>
              r.Success? && fresh(r.value) && r.value.filePath == path.value
              && r.value.props == files[path.value])
    {
      var path := Req(config, "secrets.file.path");
      if path.Failure? {
        return Failure(path.error);
      }
      if path.value !in files {
        return Failure(SecretError("Failed to load secrets file: " + path.value));
      }
      var client := new PropertiesFileSecretsClient(path.value, files[path.value]);
      return Success(client);
    }

    /** capabilities(): only KV_READ. */
    function Capabilities(): (r: set<Capability>)
      ensures r == {KvRead}
    {
      KvOnly()
    }

    /** getRequired(path, key). */
    method GetRequired(path: string, key: string) returns (r: Result<string, Failure>)
      ensures r == Lookup(props, filePath, path, key)
    {
      var propKey := PropKey(path, key);
      if propKey !in props || Trim(props[propKey]) == "" {
        return Failure(NotFound("Missing property secret: " + propKey + " in file: " + filePath));
      }
      return Success(Trim(props[propKey]));
    }

    /** close(): forgets every loaded secret; afterwards every getRequired is a not-found. */
    method Close()
      modifies this
      ensures props == map[]
      ensures forall path, key :: Lookup(props, filePath, path, key).Failure?
    {
      props := map[];
    }
  }
}
