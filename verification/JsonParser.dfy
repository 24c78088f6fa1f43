/** The hand-written parser: loops over a position, and recursion through the
    values of objects and arrays. Each routine computes the grammar's answer. */
module JsonParser {
  import opened PyStrings
  import Results
  import opened JsonSpec

  method SkipWhitespace(s: string, start: nat) returns (pos: nat)
    ensures pos == Skip(s, start)
  {
    pos := start;
    while pos < |s| && IsBlank(s[pos])
      invariant Skip(s, pos) == Skip(s, start)
    {
      pos := pos + 1;
    }
  }

  method ParseNumber(env: Numerals, s: string, start: nat) returns (r: Parsed)
    requires start < |s| && IsNumeric(s[start])
    ensures r == Number(env, s, start)
  {
    var pos := start;
    while pos < |s| && IsNumeric(s[pos])
      invariant start <= pos <= |s| && NumberEnd(s, pos) == NumberEnd(s, start)
    {
      pos := pos + 1;
    }
    var number := NumberOf(env, s[start..pos]);
    if number.Some? {
      r := Ok(number.value, pos);
    } else {
      r := Err(Results.ValueError);
    }
  }

  method ParseString(env: Numerals, s: string, start: nat) returns (r: Parsed)
    requires start < |s| && IsQuote(s[start])
    ensures r == StringRest(env, s, start + 1, s[start], "")
  {
    var quote := s[start];
    var pos := start + 1;
    var result := "";
    while pos < |s|
      invariant StringRest(env, s, pos, quote, result) == StringRest(env, s, start + 1, quote, "")
      decreases |s| - pos
    {
      var c := s[pos];
      if c == '\\' {
        pos := pos + 1;
        if pos >= |s| {
          return Err(Results.ValueError);
        }
        result := result + [Unescape(s[pos])];
      } else if c == quote {
        return Ok(ConvertValue(env, result), pos + 1);
      } else {
        result := result + [c];
      }
      pos := pos + 1;
    }
    r := Err(Results.ValueError);
  }

  method ParseTripleQuotedString(env: Numerals, s: string, start: nat) returns (r: Parsed)
    requires TripleAt(s, start)
    ensures r == TripleRest(env, s, start + 3, Slice(s, start, start + 3), "")
  {
    var quotes := Slice(s, start, start + 3);
    var pos := start + 3;
    var result := "";
    while pos < |s|
      invariant TripleRest(env, s, pos, quotes, result) == TripleRest(env, s, start + 3, quotes, "")
      decreases |s| - pos
    {
      if Slice(s, pos, pos + 3) == quotes {
        return Ok(ConvertValue(env, result), pos + 3);
      }
      result := result + [s[pos]];
      pos := pos + 1;
    }
    r := Err(Results.ValueError);
  }

  method ParseKey(env: Numerals, s: string, start: nat) returns (r: Parsed)
    ensures r == Key(env, s, start)
  {
    var pos := SkipWhitespace(s, start);
    if pos >= |s| {
      r := Err(Results.IndexError);
    } else if IsQuote(s[pos]) {
      r := ParseString(env, s, pos);
    } else {
      r := Err(Results.ValueError);
    }
  }

  method ParseMember(env: Numerals, s: string, start: nat) returns (r: Entry)
    ensures r == Member(env, s, start)
    decreases |s| - start, 2
  {
    hide Key, Value, Skip;
    var key := ParseKey(env, s, start);
    if key.Err? {
      return NoEntry(key.error);
    }
    var pos := SkipWhitespace(s, key.pos);
    if pos >= |s| || s[pos] != ':' {
      return NoEntry(Results.ValueError);
    }
    pos := SkipWhitespace(s, pos + 1);
    var value := ParseValue(env, s, pos);
    if value.Err? {
      return NoEntry(value.error);
    }
    r := Entry(key.value, value.value, value.pos);
  }

  method ParseObject(env: Numerals, s: string, start: nat) returns (r: Parsed)
    requires start < |s| && s[start] == '{'
    ensures r == Members(env, s, Skip(s, start + 1), [])
    decreases |s| - start, 0
  {
    hide Member, Put, Skip;
    var obj: seq<(Json, Json)> := [];
    var pos := SkipWhitespace(s, start + 1);
    ghost var whole := Members(env, s, pos, []);
    while pos < |s| && s[pos] != '}'
      invariant start < pos && Members(env, s, pos, obj) == whole
      decreases |s| - pos
    {
      var entry := ParseMember(env, s, pos);
      if entry.NoEntry? {
        return Err(entry.error);
      }
      obj := Put(obj, entry.key, entry.value);
      pos := SkipWhitespace(s, entry.pos);
      if pos < |s| && s[pos] == ',' {
        pos := SkipWhitespace(s, pos + 1);
      } else if pos < |s| && s[pos] == '}' {
        break;
      } else if pos < |s| {
        return Err(Results.ValueError);
      }
    }
    if pos >= |s| || s[pos] != '}' {
      return Err(Results.ValueError);
    }
    r := Ok(JObj(obj), pos + 1);
  }

  method ParseArray(env: Numerals, s: string, start: nat) returns (r: Parsed)
    requires start < |s| && s[start] == '['
    ensures r == Elements(env, s, Skip(s, start + 1), [])
    decreases |s| - start, 0
  {
    hide Value, Skip;
    var lst: seq<Json> := [];
    var pos := SkipWhitespace(s, start + 1);
    ghost var whole := Elements(env, s, pos, []);
    while pos < |s| && s[pos] != ']'
      invariant start < pos && Elements(env, s, pos, lst) == whole
      decreases |s| - pos
    {
      var value := ParseValue(env, s, pos);
      if value.Err? {
        return value;
      }
      lst := lst + [value.value];
      pos := SkipWhitespace(s, value.pos);
      if pos < |s| && s[pos] == ',' {
        pos := SkipWhitespace(s, pos + 1);
      } else if pos < |s| && s[pos] == ']' {
        break;
      } else if pos < |s| {
        return Err(Results.ValueError);
      }
    }
    if pos >= |s| || s[pos] != ']' {
      return Err(Results.ValueError);
    }
    r := Ok(JArr(lst), pos + 1);
  }

  method ParseValue(env: Numerals, s: string, start: nat) returns (r: Parsed)
    ensures r == Value(env, s, start)
    decreases |s| - start, 1
  {
    hide Members, Elements, StringRest, TripleRest, Slice, Lower, Number, Skip;
    var pos := SkipWhitespace(s, start);
    if pos >= |s| {
      r := Err(Results.ValueError);
    } else if s[pos] == '{' {
      r := ParseObject(env, s, pos);
    } else if s[pos] == '[' {
      r := ParseArray(env, s, pos);
    } else if TripleAt(s, pos) {
      r := ParseTripleQuotedString(env, s, pos);
    } else if IsQuote(s[pos]) {
      r := ParseString(env, s, pos);
    } else if Lower(Slice(s, pos, pos + 4)) == "true" {
      r := Ok(JBool(true), pos + 4);
    } else if Lower(Slice(s, pos, pos + 5)) == "false" {
      r := Ok(JBool(false), pos + 5);
    } else if Lower(Slice(s, pos, pos + 4)) == "null" {
      r := Ok(JNull, pos + 4);
    } else if IsNumeric(s[pos]) && s[pos] != 'e' && s[pos] != 'E' {
      r := ParseNumber(env, s, pos);
    } else {
      r := Err(Results.ValueError);
    }
  }

  method ExtractJson(env: Numerals, text: string) returns (r: Extracted)
    ensures r == Extract(env, text)
  {
    var start := IndexOf(text, '{', 0);
    if start.None? {
      return Failed(Results.ValueError);
    }
    var s := Strip(Slice(text, start.value, AfterLast(text, '}')));
    var value := ParseValue(env, s, 0);
    if value.Err? {
      return Failed(value.error);
    }
    var pos := SkipWhitespace(s, value.pos);
    if pos != |s| {
      return Failed(Results.ValueError);
    }
    r := Found(value.value);
  }
}
