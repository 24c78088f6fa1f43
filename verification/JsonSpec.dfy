/** The grammar that `extract_json` accepts, as functions of text and position. */
module JsonSpec {
  import opened Options
  import opened PyStrings
  import Results

  datatype Json =
    | JNull
    | JBool(b: bool)
    | JInt(n: int)
    | JFloat(x: real)
    | JStr(s: string)
    | JArr(items: seq<Json>)
    | JObj(entries: seq<(Json, Json)>)

  /** A value and the position behind it. */
  datatype Parsed = Ok(value: Json, pos: nat) | Err(error: Results.Error)

  /** What the host language's `int` and `float` make of a text. */
  datatype Numerals = Numerals(toInt: string -> Option<int>, toFloat: string -> Option<real>)

  function NumberOf(env: Numerals, text: string): Option<Json> {
    if '.' in text || 'e' in Lower(text) then
      var x := env.toFloat(text);
      if x.Some? then Some(JFloat(x.value)) else None
    else
      var n := env.toInt(text);
      if n.Some? then Some(JInt(n.value)) else None
  }

  /** Strings that spell a constant or a number are read as one. */
  function ConvertValue(env: Numerals, text: string): Json {
    var lower := Lower(text);
    if lower == "true" then JBool(true)
    else if lower == "false" then JBool(false)
    else if lower == "null" then JNull
    else
      var n := NumberOf(env, text);
      if n.Some? then n.value else JStr(text)
  }

  // ----- dictionaries -----

  /** Keys that the host language considers equal have one normal form. */
  function KeyForm(k: Json): Json {
    match k
    case JBool(b) => JInt(if b then 1 else 0)
    case JFloat(x) => if x == x.Floor as real then JInt(x.Floor) else k
    case _ => k
  }

  /** An assignment to a key keeps the place and spelling of an equal key. */
  function Put(entries: seq<(Json, Json)>, key: Json, value: Json): (r: seq<(Json, Json)>)
    ensures |entries| <= |r| <= |entries| + 1
  {
    if entries == [] then [(key, value)]
    else if KeyForm(entries[0].0) == KeyForm(key) then [(entries[0].0, value)] + entries[1..]
    else [entries[0]] + Put(entries[1..], key, value)
  }

  // ----- tokens -----

  predicate IsBlank(c: char) {
    c == ' ' || c == '\t' || c == '\n' || c == '\r'
  }

  function Skip(s: string, pos: nat): (p: nat)
    ensures pos <= p && (pos <= |s| ==> p <= |s|)
    ensures p < |s| ==> !IsBlank(s[p])
    decreases |s| - pos
  {
    if pos < |s| && IsBlank(s[pos]) then Skip(s, pos + 1) else pos
  }

  predicate IsQuote(c: char) {
    c == '"' || c == '\''
  }

  predicate IsNumeric(c: char) {
    '0' <= c <= '9' || c == '-' || c == '+' || c == '.' || c == 'e' || c == 'E'
  }

  function NumberEnd(s: string, pos: nat): (p: nat)
    ensures pos <= p && (pos <= |s| ==> p <= |s|)
    ensures pos < |s| && IsNumeric(s[pos]) ==> pos < p
    decreases |s| - pos
  {
    if pos < |s| && IsNumeric(s[pos]) then NumberEnd(s, pos + 1) else pos
  }

  function Number(env: Numerals, s: string, pos: nat): (r: Parsed)
    requires pos < |s| && IsNumeric(s[pos])
    ensures r.Ok? ==> pos < r.pos <= |s|
  {
    var end := NumberEnd(s, pos);
    var n := NumberOf(env, s[pos..end]);
    if n.Some? then Ok(n.value, end) else Err(Results.ValueError)
  }

  function Unescape(c: char): char {
    match c
    case 'n' => '\n'
    case 't' => '\t'
    case 'r' => '\r'
    case _ => c
  }

  /** The rest of a quoted string of which `text` has been read. */
  function StringRest(env: Numerals, s: string, pos: nat, quote: char, text: string): (r: Parsed)
    ensures r.Ok? ==> pos < r.pos <= |s|
    decreases |s| - pos
  {
    if pos >= |s| then Err(Results.ValueError)
    else if s[pos] == '\\' then
      if pos + 1 >= |s| then Err(Results.ValueError)
      else StringRest(env, s, pos + 2, quote, text + [Unescape(s[pos + 1])])
    else if s[pos] == quote then Ok(ConvertValue(env, text), pos + 1)
    else StringRest(env, s, pos + 1, quote, text + [s[pos]])
  }

  function TripleRest(env: Numerals, s: string, pos: nat, quotes: string, text: string): (r: Parsed)
    requires |quotes| == 3
    ensures r.Ok? ==> pos < r.pos <= |s|
    decreases |s| - pos
  {
    if pos >= |s| then Err(Results.ValueError)
    else if Slice(s, pos, pos + 3) == quotes then Ok(ConvertValue(env, text), pos + 3)
    else TripleRest(env, s, pos + 1, quotes, text + [s[pos]])
  }

  function Key(env: Numerals, s: string, pos: nat): (r: Parsed)
    ensures r.Ok? ==> pos < r.pos <= |s|
  {
    var p := Skip(s, pos);
    if p >= |s| then Err(Results.IndexError)
    else if IsQuote(s[p]) then StringRest(env, s, p + 1, s[p], "")
    else Err(Results.ValueError)
  }

  // ----- values -----

  predicate TripleAt(s: string, pos: nat) {
    Slice(s, pos, pos + 3) == "'''" || Slice(s, pos, pos + 3) == "\"\"\""
  }

  function Value(env: Numerals, s: string, pos: nat): (r: Parsed)
    ensures r.Ok? ==> pos < r.pos <= |s|
    decreases |s| - pos, 1
  {
    var p := Skip(s, pos);
    if p >= |s| then Err(Results.ValueError)
    else if s[p] == '{' then Members(env, s, Skip(s, p + 1), [])
    else if s[p] == '[' then Elements(env, s, Skip(s, p + 1), [])
    else if TripleAt(s, p) then TripleRest(env, s, p + 3, Slice(s, p, p + 3), "")
    else if IsQuote(s[p]) then StringRest(env, s, p + 1, s[p], "")
    else Bare(env, s, p)
  }

  /** A constant, in any case, or a number. */
  function Bare(env: Numerals, s: string, p: nat): (r: Parsed)
    requires p < |s|
    ensures r.Ok? ==> p < r.pos <= |s|
  {
    if Lower(Slice(s, p, p + 4)) == "true" then Ok(JBool(true), p + 4)
    else if Lower(Slice(s, p, p + 5)) == "false" then Ok(JBool(false), p + 5)
    else if Lower(Slice(s, p, p + 4)) == "null" then Ok(JNull, p + 4)
    else if IsNumeric(s[p]) && s[p] != 'e' && s[p] != 'E' then Number(env, s, p)
    else Err(Results.ValueError)
  }

  /** A key, a colon and a value, and the position behind the value. */
  datatype Entry = Entry(key: Json, value: Json, pos: nat) | NoEntry(error: Results.Error)

  function Member(env: Numerals, s: string, pos: nat): (r: Entry)
    ensures r.Entry? ==> pos < r.pos <= |s|
    decreases |s| - pos, 2
  {
    var key := Key(env, s, pos);
    if key.Err? then NoEntry(key.error)
    else
      var colon := Skip(s, key.pos);
      if colon >= |s| || s[colon] != ':' then NoEntry(Results.ValueError)
      else
        var value := Value(env, s, Skip(s, colon + 1));
        if value.Err? then NoEntry(value.error) else Entry(key.value, value.value, value.pos)
  }

  /** The rest of an object of which `entries` have been read. */
  function Members(env: Numerals, s: string, pos: nat, entries: seq<(Json, Json)>): (r: Parsed)
    ensures r.Ok? ==> pos < r.pos <= |s|
    decreases |s| - pos, 3
  {
    if pos >= |s| then Err(Results.ValueError)
    else if s[pos] == '}' then Ok(JObj(entries), pos + 1)
    else
      var entry := Member(env, s, pos);
      if entry.NoEntry? then Err(entry.error)
      else
        var next := Put(entries, entry.key, entry.value);
        var p := Skip(s, entry.pos);
        if p >= |s| then Err(Results.ValueError)
        else if s[p] == ',' then Members(env, s, Skip(s, p + 1), next)
        else if s[p] == '}' then Ok(JObj(next), p + 1)
        else Err(Results.ValueError)
  }

  /** The rest of an array of which `items` have been read. */
  function Elements(env: Numerals, s: string, pos: nat, items: seq<Json>): (r: Parsed)
    ensures r.Ok? ==> pos < r.pos <= |s|
    decreases |s| - pos, 2
  {
    if pos >= |s| then Err(Results.ValueError)
    else if s[pos] == ']' then Ok(JArr(items), pos + 1)
    else
      var value := Value(env, s, pos);
      if value.Err? then value
      else
        var next := items + [value.value];
        var p := Skip(s, value.pos);
        if p >= |s| then Err(Results.ValueError)
        else if s[p] == ',' then Elements(env, s, Skip(s, p + 1), next)
        else if s[p] == ']' then Ok(JArr(next), p + 1)
        else Err(Results.ValueError)
  }

  // ----- the whole text -----

  datatype Extracted = Found(value: Json) | Failed(error: Results.Error)

  function IndexOf(s: string, c: char, from: nat): (r: Option<nat>)
    ensures r.Some? ==> from <= r.value < |s| && s[r.value] == c && c !in s[from..r.value]
    ensures r.None? ==> from >= |s| || c !in s[from..]
    decreases |s| - from
  {
    if from >= |s| then None
    else if s[from] == c then Some(from)
    else
      var r := IndexOf(s, c, from + 1);
      assert s[from..] == [s[from]] + s[from + 1..];
      assert r.Some? ==> s[from..r.value] == [s[from]] + s[from + 1..r.value];
      r
  }

  /** One past the last occurrence of `c`, or 0. */
  function AfterLast(s: string, c: char): (r: nat)
    ensures r <= |s| && c !in s[r..] && (r > 0 ==> s[r - 1] == c)
  {
    if s == [] then 0
    else if s[|s| - 1] == c then |s|
    else
      var r := AfterLast(s[..|s| - 1], c);
      assert s[r..] == s[..|s| - 1][r..] + [s[|s| - 1]];
      r
  }

  function Document(env: Numerals, s: string): Extracted {
    var r := Value(env, s, 0);
    if r.Err? then Failed(r.error)
    else if Skip(s, r.pos) != |s| then Failed(Results.ValueError)
    else Found(r.value)
  }

  function Extract(env: Numerals, s: string): Extracted {
    var start := IndexOf(s, '{', 0);
    if start.None? then Failed(Results.ValueError)
    else Document(env, Strip(Slice(s, start.value, AfterLast(s, '}'))))
  }
}
