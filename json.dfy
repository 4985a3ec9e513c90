/** JSON values (RFC 8259) as the bridge builds and inspects them through
    org.json's JSONObject and JSONArray, and the few org.json accessors the
    bridge relies on. Each accessor returns None exactly where org.json
    throws a JSONException. */
module Json {
  import opened Wrappers

  /** A JSON value. Objects are maps from member names to values; numbers
      are kept as integers (see README, "Left out"). */
  datatype Json =
    | Null
    | Bool(b: bool)
    | Num(n: int)
    | Str(s: string)
    | Arr(items: seq<Json>)
    | Obj(fields: map<string, Json>)

  /** The members of a JSON object. */
  type Object = map<string, Json>

  /** Parsing of JSON text. The bridge only calls the org.json parser, so the
      parser is a parameter of every operation that parses: Some(v) when the
      text is a JSON value v, None when the parser rejects it. */
  type Parser = string -> Option<Json>

  /** `new JSONObject(text)`: the text must parse to a JSON object. */
  function ParseObject(parse: Parser, text: string): (r: Option<Object>)
    ensures r.Some? <==> parse(text).Some? && parse(text).value.Obj?
    ensures r.Some? ==> parse(text) == Some(Obj(r.value))
  {
    match parse(text)
    case Some(Obj(fields)) => Some(fields)
    case _ => None
  }

  /** `new JSONArray(text)`: the text must parse to a JSON array. */
  function ParseArray(parse: Parser, text: string): (r: Option<seq<Json>>)
    ensures r.Some? <==> parse(text).Some? && parse(text).value.Arr?
    ensures r.Some? ==> parse(text) == Some(Arr(r.value))
  {
    match parse(text)
    case Some(Arr(items)) => Some(items)
    case _ => None
  }

  /** Java's `Character.toUpperCase` followed by `toLowerCase`, restricted to
      what matters when a string is compared with a lower-case ASCII word:
      ASCII capitals fold to their lower case, and LATIN SMALL LETTER LONG S
      (U+017F), whose upper case is 'S', folds to 's'. */
  function FoldForWord(c: char): (f: char)
    ensures 'a' <= c <= 'z' ==> f == c
    ensures 'A' <= c <= 'Z' ==> f == c + ('a' - 'A')
  {
    if 'A' <= c <= 'Z' then c + ('a' - 'A')
    else if c == '\U{017F}' then 's'
    else c
  }

  /** `word.equalsIgnoreCase(s)` for a lower-case ASCII word. */
  predicate EqualsIgnoreCase(s: string, word: string) {
    |s| == |word| && forall i :: 0 <= i < |s| ==> FoldForWord(s[i]) == word[i]
  }

  /** `JSONObject.getBoolean(key)` (Android's org.json): a boolean member is
      returned as it is, a string member equal to "true" or "false" ignoring
      case is coerced; a missing key or any other member throws. */
  function GetBoolean(o: Object, key: string): (r: Option<bool>)
    ensures r.Some? ==> key in o
    ensures key in o && o[key].Bool? ==> r == Some(o[key].b)
    ensures key !in o || o[key].Null? || o[key].Num? || o[key].Arr? || o[key].Obj? ==> r.None?
  {
    if key !in o then None
    else match o[key]
      case Bool(b) => Some(b)
      case Str(s) =>
        if EqualsIgnoreCase(s, "true") then Some(true)
        else if EqualsIgnoreCase(s, "false") then Some(false)
        else None
      case _ => None
  }

  /** `JSONObject.getJSONObject(key)`: the member must exist and be an object. */
  function GetObject(o: Object, key: string): (r: Option<Object>)
    ensures r.Some? <==> key in o && o[key].Obj?
    ensures r.Some? ==> o[key] == Obj(r.value)
  {
    if key in o && o[key].Obj? then Some(o[key].fields) else None
  }

  /** A string member that spells a boolean is read as that boolean, in
      either direction, whatever its letter case. */
  lemma GetBooleanOfString(o: Object, key: string)
    requires key in o && o[key].Str?
    ensures GetBoolean(o, key) == Some(true) <==> EqualsIgnoreCase(o[key].s, "true")
    ensures GetBoolean(o, key) == Some(false) <==> EqualsIgnoreCase(o[key].s, "false")
  {
  }
}
