/**
 * A parsed JSON tree, as the Jackson library hands it to the Vault client, with the three
 * operations the client uses on it: JsonNode.path(name), JsonNode.asText(null) and
 * ObjectMapper.writeValueAsString.
 */
module Json {
  import opened Wrappers
  import opened Text

  /** A JSON value. Numbers are integers; objects keep their members in document order. */
  datatype Json =
    | JNull
    | JBool(b: bool)
    | JNumber(n: int)
    | JString(text: string)
    | JArray(items: seq<Json>)
    | JObject(members: seq<Member>)

  datatype Member = Member(name: string, value: Json)

  /** The value of the first member called name, if any. */
  function Find(members: seq<Member>, name: string): (r: Option<Json>)
    ensures r.Some? <==> exists k :: 0 <= k < |members| && members[k].name == name
    ensures r.Some? ==> exists k :: 0 <= k < |members| && members[k] == Member(name, r.value)
  {
    if members == [] then None
    else if members[0].name == name then Some(members[0].value)
    else Find(members[1..], name)
  }

  /**
   * JsonNode.path(name). None stands for Jackson's MissingNode: the result of asking for a
   * member of a missing node, of a non-object node, or of an object that lacks that member.
   */
  function Path(node: Option<Json>, name: string): (r: Option<Json>)
    ensures r.Some? <==> node.Some? && node.value.JObject?
                         && exists k :: 0 <= k < |node.value.members| && node.value.members[k].name == name
    ensures r.Some? ==> exists k :: 0 <= k < |node.value.members| && node.value.members[k] == Member(name, r.value)
  {
    match node
    case Some(JObject(members)) => Find(members, name)
    case _ => None
  }

  /**
   * JsonNode.asText(null): null for a missing or JSON-null node, the text of a string node,
   * the printed value of a number or boolean, and "" for an array or an object.
   */
  function AsText(node: Option<Json>): (r: Option<string>)
    ensures r.None? <==> node.None? || node.value.JNull?
    ensures node.Some? && node.value.JString? ==> r == Some(node.value.text)
    ensures node.Some? && node.value.JNumber? ==> r == Some(Decimal(node.value.n))
    ensures node.Some? && node.value.JBool? ==> r == Some(if node.value.b then "true" else "false")
    ensures node.Some? && (node.value.JArray? || node.value.JObject?) ==> r == Some("")
  {
    match node
    case None => None
    case Some(JNull) => None
    case Some(JBool(b)) => Some(if b then "true" else "false")
    case Some(JNumber(n)) => Some(Decimal(n))
    case Some(JString(t)) => Some(t)
    case Some(JArray(_)) => Some("")
    case Some(JObject(_)) => Some("")
  }

  /** How Jackson writes one character inside a JSON string literal. */
  function EscapeChar(c: char): string
  {
    if c == '"' then "\\\""
    else if c == '\\' then "\\\\"
    else if c as int == 8 then "\\b"
    else if c == '\t' then "\\t"
    else if c == '\n' then "\\n"
    else if c as int == 12 then "\\f"
    else if c == '\r' then "\\r"
    else if (c as int) < 32 then "\\u00" + [HexDigit((c as int) / 16), HexDigit((c as int) % 16)]
    else [c]
  }

  /** Every character of s as Jackson writes it inside a string literal. */
  function EscapeAll(s: string): string
  {
    if s == [] then "" else EscapeChar(s[0]) + EscapeAll(s[1..])
  }

  /** Text with no control character, quote or backslash. */
  predicate Plain(t: string)
  {
    t == [] || (32 <= t[0] as int && t[0] != '"' && t[0] != '\\' && Plain(t[1..]))
  }

  /** Plain text needs no escaping. */
  lemma {:induction false} EscapeAllPlain(t: string)
    requires Plain(t)
    ensures EscapeAll(t) == t
  {
    if t != [] {
      EscapeAllPlain(t[1..]);
    }
  }

  /** A JSON string literal for s. */
  function Quote(s: string): string
  {
    "\"" + EscapeAll(s) + "\""
  }

  /** Plain text is quoted as it is. */
  lemma QuotePlain(t: string)
    requires Plain(t)
    ensures Quote(t) == "\"" + t + "\""
  {
    EscapeAllPlain(t);
  }

  /** The parts separated by commas. */
  function CommaSeparated(parts: seq<string>): string
  {
    if parts == [] then ""
    else if |parts| == 1 then parts[0]
    else parts[0] + "," + CommaSeparated(parts[1..])
  }

  /** ObjectMapper.writeValueAsString: compact JSON text, members in tree order. */
  function Serialize(j: Json): string
  {
    match j
    case JNull => "null"
    case JBool(b) => if b then "true" else "false"
    case JNumber(n) => Decimal(n)
    case JString(t) => Quote(t)
    case JArray(items) =>
      "[" + CommaSeparated(seq(|items|, k requires 0 <= k < |items| => Serialize(items[k]))) + "]"
    case JObject(members) =>
      "{" + CommaSeparated(seq(|members|, k requires 0 <= k < |members| =>
                                Quote(members[k].name) + ":" + Serialize(members[k].value))) + "}"
  }

  /** Jackson's text for an object of two members. */
  lemma SerializeTwoMembers(n1: string, v1: Json, n2: string, v2: Json)
    ensures Serialize(JObject([Member(n1, v1), Member(n2, v2)]))
         == "{" + (Quote(n1) + ":" + Serialize(v1)) + "," + (Quote(n2) + ":" + Serialize(v2)) + "}"
  {
    var members := [Member(n1, v1), Member(n2, v2)];
    var parts := seq(|members|, k requires 0 <= k < |members| =>
                       Quote(members[k].name) + ":" + Serialize(members[k].value));
    assert parts[0] == Quote(n1) + ":" + Serialize(v1);
    assert parts[1] == Quote(n2) + ":" + Serialize(v2);
    assert parts[1..] == [parts[1]];
    assert CommaSeparated(parts) == parts[0] + "," + parts[1];
    assert Serialize(JObject(members)) == "{" + CommaSeparated(parts) + "}";
  }
}
