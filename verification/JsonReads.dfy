/** The grammar reads every well-formed text as what it says. */
module JsonReads {
  import opened Options
  import opened PyStrings
  import opened JsonSpec
  import opened JsonText
  import Results
  import Sequences

  // ----- blanks -----

  lemma {:induction false} SkipBlanks(s: string, pos: nat, w: string)
    requires AllBlank(w) && At(s, pos, w)
    ensures Skip(s, pos) == Skip(s, pos + |w|)
    decreases |w|
  {
    if w != "" {
      AtTail(s, pos, w);
      SkipBlanks(s, pos + 1, w[1..]);
    }
  }

  /** Blanks are skipped up to the next token. */
  lemma SkipTo(s: string, pos: nat, w: string, next: nat)
    requires AllBlank(w) && At(s, pos, w) && next == pos + |w| && (next < |s| ==> !IsBlank(s[next]))
    ensures Skip(s, pos) == next
  {
    SkipBlanks(s, pos, w);
    AtBounds(s, pos, w);
  }

  lemma BlanksAreSkipped(s: string, pos: nat, w: string, rest: string)
    requires AllBlank(w) && rest != "" && !IsBlank(rest[0]) && At(s, pos, w + rest)
    ensures At(s, pos + |w|, rest) && Skip(s, pos) == pos + |w| && pos + |w| < |s| && s[pos + |w|] == rest[0]
  {
    hide *;
    AtConcat(s, pos, w, rest);
    AtEntry(s, pos + |w|, rest, 0);
    SkipTo(s, pos, w, pos + |w|);
  }

  // ----- strings -----

  lemma PieceIsRead(env: Numerals, s: string, pos: nat, quote: char, p: Piece, read: string)
    requires IsQuote(quote) && IsPiece(p, quote) && At(s, pos, PieceText(p))
    ensures StringRest(env, s, pos, quote, read) == StringRest(env, s, pos + |PieceText(p)|, quote, read + [p.c])
  {
    var e := PieceText(p);
    AtEntry(s, pos, e, 0);
    if p.Escaped? {
      AtEntry(s, pos, e, 1);
    }
  }

  /** A string is read piece by piece, and then converted. */
  lemma {:induction false} PiecesAreRead(env: Numerals, s: string, pos: nat, quote: char, pieces: seq<Piece>, read: string)
    requires IsQuote(quote) && forall i :: 0 <= i < |pieces| ==> IsPiece(pieces[i], quote)
    requires At(s, pos, PiecesText(pieces) + [quote])
    ensures StringRest(env, s, pos, quote, read)
         == Ok(ConvertValue(env, read + Said(pieces)), pos + |PiecesText(pieces)| + 1)
    decreases |pieces|
  {
    if pieces == [] {
      assert read + Said(pieces) == read;
      assert PiecesText(pieces) + [quote] == [quote];
      AtEntry(s, pos, [quote], 0);
    } else {
      hide *;
      var head, rest := PieceText(pieces[0]), PiecesText(pieces[1..]) + [quote];
      FirstPiece(pieces, quote, read);
      AtConcat(s, pos, head, rest);
      PieceIsRead(env, s, pos, quote, pieces[0], read);
      PiecesAreRead(env, s, pos + |head|, quote, pieces[1..], read + [pieces[0].c]);
    }
  }

  lemma FirstPiece(pieces: seq<Piece>, quote: char, read: string)
    requires pieces != []
    ensures var head, rest := PieceText(pieces[0]), PiecesText(pieces[1..]);
            PiecesText(pieces) + [quote] == head + (rest + [quote]) && |PiecesText(pieces)| == |head| + |rest|
    ensures read + [pieces[0].c] + Said(pieces[1..]) == read + Said(pieces)
  {
    hide PieceText;
    Regrouped(PieceText(pieces[0]), PiecesText(pieces[1..]), [quote]);
    assert Said(pieces) == [pieces[0].c] + Said(pieces[1..]);
    Regrouped(read, [pieces[0].c], Said(pieces[1..]));
  }

  lemma Regrouped(a: string, b: string, c: string)
    ensures (a + b) + c == a + (b + c)
  {
  }

  lemma LiteralIsRead(env: Numerals, s: string, pos: nat, l: Literal)
    requires IsLiteral(l) && At(s, pos, LiteralText(l))
    ensures pos < |s| && s[pos] == l.quote && IsQuote(l.quote)
    ensures StringRest(env, s, pos + 1, l.quote, "") == Ok(ConvertValue(env, Said(l.pieces)), pos + |LiteralText(l)|)
  {
    assert "" + Said(l.pieces) == Said(l.pieces);
    hide PiecesText, Said, At, ConvertValue, StringRest;
    AtConcat(s, pos, [l.quote], PiecesText(l.pieces) + [l.quote]);
    AtEntry(s, pos, [l.quote], 0);
    PiecesAreRead(env, s, pos + 1, l.quote, l.pieces, "");
  }

  // ----- triple quotes -----

  lemma SliceIsAt(s: string, pos: nat, quotes: string)
    requires |quotes| == 3
    ensures Slice(s, pos, pos + 3) == quotes <==> At(s, pos, quotes)
  {
  }

  /** The text between triple quotes goes up to where they first stand again. */
  lemma {:induction false} TripleRestIs(env: Numerals, s: string, pos: nat, quotes: string, read: string, end: nat)
    requires |quotes| == 3 && pos <= end && At(s, end, quotes)
    requires forall i :: pos <= i < end ==> !At(s, i, quotes)
    ensures end <= |s| && TripleRest(env, s, pos, quotes, read) == Ok(ConvertValue(env, read + s[pos..end]), end + 3)
    decreases end - pos
  {
    SliceIsAt(s, pos, quotes);
    assert end + 3 <= |s|;
    if pos == end {
      assert read + s[pos..end] == read;
    } else {
      hide *;
      OneMoreRead(env, s, pos, quotes, read);
      TripleRestIs(env, s, pos + 1, quotes, read + [s[pos]], end);
      MoveRead(read, s, pos, end);
    }
  }

  lemma OneMoreRead(env: Numerals, s: string, pos: nat, quotes: string, read: string)
    requires |quotes| == 3 && pos < |s| && Slice(s, pos, pos + 3) != quotes
    ensures TripleRest(env, s, pos, quotes, read) == TripleRest(env, s, pos + 1, quotes, read + [s[pos]])
  {
  }

  lemma MoveRead(read: string, s: string, pos: nat, end: nat)
    requires pos < end <= |s|
    ensures read + [s[pos]] + s[pos + 1..end] == read + s[pos..end]
  {
  }

  /** Triple quotes that are not closed fail. */
  lemma {:induction false} UnclosedTriple(env: Numerals, s: string, pos: nat, quotes: string, read: string)
    requires |quotes| == 3 && forall i :: pos <= i ==> !At(s, i, quotes)
    ensures TripleRest(env, s, pos, quotes, read) == Err(Results.ValueError)
    decreases |s| - pos
  {
    SliceIsAt(s, pos, quotes);
    if pos < |s| {
      UnclosedTriple(env, s, pos + 1, quotes, read + [s[pos]]);
    }
  }

  /** The text is read as it stands when it does not contain the quotes. */
  lemma TripleIsRead(env: Numerals, s: string, pos: nat, quote: char, text: string)
    requires IsTriple(quote, text) && At(s, pos, Text(Triple(quote, text)))
    ensures Value(env, s, pos) == Ok(ConvertValue(env, text), pos + |text| + 6)
  {
    var quotes := [quote, quote, quote];
    var from, end := pos + 3, pos + 3 + |text|;
    hide ConvertValue, Members, Elements, StringRest, TripleRest, Bare;
    TripleParts(s, pos, quotes, text);
    forall i | from <= i < end ensures !At(s, i, quotes) {
      WithinText(s, from, text + quotes, i - from, quotes);
    }
    TripleRestIs(env, s, from, quotes, "", end);
    assert "" + text == text;
    AtBounds(s, pos, quotes);
    SliceIsAt(s, pos, quotes);
    TripleStep(env, s, pos, quotes);
  }

  lemma TripleParts(s: string, pos: nat, quotes: string, text: string)
    requires |quotes| == 3 && At(s, pos, quotes + (text + quotes))
    ensures At(s, pos, quotes) && At(s, pos + 3, text + quotes) && At(s, pos + 3 + |text|, quotes)
    ensures s[pos + 3..pos + 3 + |text|] == text
  {
    AtConcat(s, pos, quotes, text + quotes);
    AtConcat(s, pos + 3, text, quotes);
  }

  lemma WithinText(s: string, pos: nat, t: string, i: nat, quotes: string)
    requires At(s, pos, t) && |quotes| == 3 && i + 3 <= |t|
    ensures At(s, pos + i, quotes) <==> At(t, i, quotes)
  {
    Sequences.SliceOfSlice(s, pos, pos + |t|, i, i + 3);
  }

  lemma TripleStep(env: Numerals, s: string, pos: nat, quotes: string)
    requires quotes == "\"\"\"" || quotes == "'''"
    requires Slice(s, pos, pos + 3) == quotes && pos < |s| && s[pos] == quotes[0]
    ensures Value(env, s, pos) == TripleRest(env, s, pos + 3, quotes, "")
  {
    hide Slice, TripleRest;
    assert Skip(s, pos) == pos;
  }

  // ----- tokens in context -----

  /** A place where a value may end. */
  predicate Delimits(s: string, pos: nat) {
    pos < |s| ==> IsBlank(s[pos]) || s[pos] == ',' || s[pos] == '}' || s[pos] == ']' || s[pos] == ':'
  }

  lemma BareStep(env: Numerals, s: string, pos: nat)
    requires pos < |s| && !IsBlank(s[pos]) && s[pos] != '{' && s[pos] != '[' && !IsQuote(s[pos])
    ensures Value(env, s, pos) == Bare(env, s, pos)
  {
    NotQuoted(s, pos);
    assert Skip(s, pos) == pos;
    hide Skip, Bare, TripleAt;
  }

  lemma NotQuoted(s: string, pos: nat)
    requires pos < |s| && !IsQuote(s[pos])
    ensures !TripleAt(s, pos)
  {
    assert Slice(s, pos, pos + 3)[0] == s[pos];
  }

  lemma LowerSpelling(text: string, lower: string, upper: string)
    requires Constant(lower, upper)
    ensures Spells(text, lower, upper) <==> Lower(text) == lower
  {
    hide Lower;
    if Spells(text, lower, upper) {
      assert forall i :: 0 <= i < |text| ==> LowerChar(text[i]) == lower[i];
    }
    if Lower(text) == lower {
      assert forall i :: 0 <= i < |text| ==> LowerChar(text[i]) == lower[i];
    }
  }

  predicate Constant(lower: string, upper: string) {
    || (lower == "true" && upper == "TRUE")
    || (lower == "false" && upper == "FALSE")
    || (lower == "null" && upper == "NULL")
  }

  lemma WordIsRead(env: Numerals, s: string, pos: nat, text: string, v: Json)
    requires IsWord(text, v) && At(s, pos, text)
    ensures Value(env, s, pos) == Ok(v, pos + |text|)
  {
    AtEntry(s, pos, text, 0);
    BareStep(env, s, pos);
    BareWord(env, s, pos, text, v);
  }

  lemma BareWord(env: Numerals, s: string, pos: nat, text: string, v: Json)
    requires IsWord(text, v) && At(s, pos, text) && pos < |s| && s[pos] == text[0]
    ensures Bare(env, s, pos) == Ok(v, pos + |text|)
  {
    OtherWords(s, pos);
    LowerSpelling(text, "true", "TRUE");
    LowerSpelling(text, "false", "FALSE");
    LowerSpelling(text, "null", "NULL");
    hide Lower;
  }

  /** Which constant the text at `pos` can be is settled by its first letter. */
  lemma OtherWords(s: string, pos: nat)
    requires pos < |s|
    ensures s[pos] !in "tT" ==> Lower(Slice(s, pos, pos + 4)) != "true"
    ensures s[pos] !in "fF" ==> Lower(Slice(s, pos, pos + 5)) != "false"
    ensures s[pos] !in "nN" ==> Lower(Slice(s, pos, pos + 4)) != "null"
  {
    assert Lower(Slice(s, pos, pos + 4))[0] == LowerChar(s[pos]);
    assert Lower(Slice(s, pos, pos + 5))[0] == LowerChar(s[pos]);
  }

  lemma {:induction false} NumberEndsAt(s: string, pos: nat, t: string)
    requires At(s, pos, t) && (forall i :: 0 <= i < |t| ==> t[i] in "-+0123456789.eE")
    requires pos + |t| < |s| ==> !IsNumeric(s[pos + |t|])
    ensures NumberEnd(s, pos) == pos + |t|
    decreases |t|
  {
    if t != "" {
      AtTail(s, pos, t);
      NumberEndsAt(s, pos + 1, t[1..]);
    }
  }

  lemma HasExponent(text: string)
    ensures 'e' in Lower(text) <==> 'e' in text || 'E' in text
  {
    forall i | 0 <= i < |text| ensures Lower(text)[i] == 'e' <==> text[i] == 'e' || text[i] == 'E' {
      assert Lower(text)[i] == LowerChar(text[i]);
    }
    if 'E' in text {
      var i :| 0 <= i < |text| && text[i] == 'E';
      assert Lower(text)[i] == 'e';
    }
    if 'e' in text {
      var i :| 0 <= i < |text| && text[i] == 'e';
      assert Lower(text)[i] == 'e';
    }
  }

  /** `NumberOf` finds the number if there is one. */
  lemma NumberOfIs(env: Numerals, text: string, v: Json)
    ensures NumberOf(env, text) == Some(v) <==> IsNumber(env, text, v)
  {
    HasExponent(text);
    hide Lower;
  }

  /** A numeral starts like nothing else. */
  lemma NumeralStarts(c: char)
    requires c in "-+0123456789."
    ensures IsNumeric(c) && c != 'e' && c != 'E' && !IsBlank(c) && !IsQuote(c) && c != '{' && c != '['
    ensures c !in "tT" && c !in "fF" && c !in "nN"
  {
  }

  lemma NumeralParts(env: Numerals, s: string, pos: nat, text: string, v: Json)
    requires IsNumeral(env, text, v) && At(s, pos, text) && Delimits(s, pos + |text|)
    ensures text != "" && pos < |s| && s[pos] in "-+0123456789." && IsNumber(env, text, v)
    ensures NumberEnd(s, pos) == pos + |text| <= |s| && s[pos..pos + |text|] == text
  {
    hide IsNumber;
    AtEntry(s, pos, text, 0);
    NumberEndsAt(s, pos, text);
  }

  lemma NumberIsRead(env: Numerals, s: string, pos: nat, end: nat, v: Json)
    requires pos < end <= |s| && IsNumeric(s[pos]) && NumberEnd(s, pos) == end && NumberOf(env, s[pos..end]) == Some(v)
    ensures Number(env, s, pos) == Ok(v, end)
  {
  }

  lemma BareNumber(env: Numerals, s: string, pos: nat)
    requires pos < |s| && IsNumeric(s[pos]) && s[pos] != 'e' && s[pos] != 'E'
    requires s[pos] !in "tT" && s[pos] !in "fF" && s[pos] !in "nN"
    ensures Bare(env, s, pos) == Number(env, s, pos)
  {
    OtherWords(s, pos);
    hide Lower, Slice, Number, IsNumeric;
  }

  lemma NumeralIsRead(env: Numerals, s: string, pos: nat, text: string, v: Json)
    requires IsNumeral(env, text, v) && At(s, pos, text) && Delimits(s, pos + |text|)
    ensures Value(env, s, pos) == Ok(v, pos + |text|)
  {
    hide *;
    NumeralParts(env, s, pos, text, v);
    NumeralStarts(s[pos]);
    NumberOfIs(env, text, v);
    NumberIsRead(env, s, pos, pos + |text|, v);
    BareNumber(env, s, pos);
    BareStep(env, s, pos);
  }

  lemma QuotedIsRead(env: Numerals, s: string, pos: nat, l: Literal)
    requires IsLiteral(l) && At(s, pos, LiteralText(l)) && Delimits(s, pos + |LiteralText(l)|)
    ensures Value(env, s, pos) == Ok(ConvertValue(env, Said(l.pieces)), pos + |LiteralText(l)|)
  {
    LiteralIsRead(env, s, pos, l);
    NoTriple(s, pos, l);
    hide ConvertValue, StringRest, TripleAt, LiteralText;
    assert Skip(s, pos) == pos;
  }

  /** An empty string before a delimiter is not the start of a triple quote,
      and neither is a string that starts with a backslash. */
  lemma NoTriple(s: string, pos: nat, l: Literal)
    requires IsLiteral(l) && At(s, pos, LiteralText(l)) && Delimits(s, pos + |LiteralText(l)|)
    ensures !TripleAt(s, pos)
  {
    var q := LiteralText(l);
    var three := Slice(s, pos, pos + 3);
    AtBounds(s, pos, q);
    assert three[0] == s[pos] == q[0];
    if l.pieces == [] {
      if |three| == 3 {
        assert three[2] == s[pos + 2];
      }
    } else {
      assert q[1] == PieceText(l.pieces[0])[0];
      assert three[1] == s[pos + 1] == q[1];
    }
  }

  // ----- separators -----

  /** Behind an entry that ends at `pos` the next token is at `next`, after a
      comma if there is one. */
  ghost predicate Separated(s: string, pos: nat, comma: bool, next: nat) {
    var p := Skip(s, pos);
    next < |s| && if comma then p < |s| && s[p] == ',' && Skip(s, p + 1) == next else p == next
  }

  /** Blanks, perhaps a comma, and blanks, and then `tail`. */
  lemma GapIsRead(g: Gap, s: string, pos: nat, tail: string)
    requires IsGap(g) && tail != "" && !IsBlank(tail[0]) && (g.NoComma? ==> tail[0] == ']' || tail[0] == '}')
    requires At(s, pos, GapText(g) + tail)
    ensures At(s, pos + |GapText(g)|, tail) && s[pos + |GapText(g)|] == tail[0]
    ensures Separated(s, pos, g.Comma?, pos + |GapText(g)|)
    ensures Delimits(s, pos)
  {
    hide At, AllBlank, IsBlank, Separated, Delimits;
    match g
    case Comma(before, after) =>
      assert (before + ("," + after)) + tail == before + ("," + (after + tail));
      CommaIsRead(s, pos, before, after, tail);
      AtEntry(s, pos + |GapText(g)|, tail, 0);
    case NoComma(before) =>
      CloseIsRead(s, pos, before, tail);
      AtEntry(s, pos + |before|, tail, 0);
  }

  lemma CommaIsRead(s: string, pos: nat, pre: string, post: string, tail: string)
    requires AllBlank(pre) && AllBlank(post) && tail != "" && !IsBlank(tail[0])
    requires At(s, pos, pre + ("," + (post + tail)))
    ensures At(s, pos + |pre| + 1 + |post|, tail)
    ensures Separated(s, pos, true, pos + |pre| + 1 + |post|)
    ensures Delimits(s, pos)
  {
    hide *;
    var comma := pos + |pre|;
    BlanksDelimit(s, pos, pre, post + tail);
    CommaIsNotBlank(post + tail);
    BlanksAreSkipped(s, pos, pre, "," + (post + tail));
    AtConcat(s, comma, ",", post + tail);
    BlanksAreSkipped(s, comma + 1, post, tail);
    SeparatedIs(s, pos, comma, comma + 1 + |post|);
  }

  lemma CommaIsNotBlank(rest: string)
    ensures "," + rest != "" && ("," + rest)[0] == ',' && !IsBlank(("," + rest)[0])
  {
  }

  lemma SeparatedIs(s: string, pos: nat, comma: nat, next: nat)
    requires Skip(s, pos) == comma && comma < |s| && s[comma] == ',' && Skip(s, comma + 1) == next < |s|
    ensures Separated(s, pos, true, next)
  {
    hide Skip;
  }

  lemma BlanksDelimit(s: string, pos: nat, pre: string, rest: string)
    requires AllBlank(pre) && At(s, pos, pre + ("," + rest))
    ensures Delimits(s, pos)
  {
    AtEntry(s, pos, pre + ("," + rest), 0);
    hide At;
  }

  lemma CloseIsRead(s: string, pos: nat, pre: string, tail: string)
    requires AllBlank(pre) && tail != "" && (tail[0] == ']' || tail[0] == '}')
    requires At(s, pos, pre + tail)
    ensures At(s, pos + |pre|, tail) && Separated(s, pos, false, pos + |pre|)
    ensures Delimits(s, pos)
  {
    AtConcat(s, pos, pre, tail);
    SkipTo(s, pos, pre, pos + |pre|);
  }

  // ----- one step of the grammar -----

  lemma ElementStep(env: Numerals, s: string, pos: nat, read: seq<Json>, value: Json, end: nat, comma: bool, next: nat)
    requires pos < |s| && s[pos] != ']' && Value(env, s, pos) == Ok(value, end)
    requires Separated(s, end, comma, next) && (!comma ==> s[next] == ']')
    ensures Elements(env, s, pos, read) == Elements(env, s, next, read + [value])
  {
    hide Value, Skip;
  }

  lemma EntryStep(env: Numerals, s: string, pos: nat, read: seq<(Json, Json)>, entry: Entry, comma: bool, next: nat)
    requires pos < |s| && s[pos] != '}' && entry.Entry? && Member(env, s, pos) == entry
    requires Separated(s, entry.pos, comma, next) && (!comma ==> s[next] == '}')
    ensures Members(env, s, pos, read) == Members(env, s, next, Put(read, entry.key, entry.value))
  {
    hide Member, Skip, Put;
  }

  lemma KeyStep(env: Numerals, s: string, pos: nat)
    requires pos < |s| && IsQuote(s[pos])
    ensures Key(env, s, pos) == StringRest(env, s, pos + 1, s[pos], "")
  {
    assert Skip(s, pos) == pos;
  }

  lemma MemberStep(env: Numerals, s: string, pos: nat, key: Parsed, colon: nat, at: nat, value: Parsed)
    requires key.Ok? && Key(env, s, pos) == key
    requires Skip(s, key.pos) == colon && colon < |s| && s[colon] == ':' && Skip(s, colon + 1) == at
    requires Value(env, s, at) == value && value.Ok?
    ensures Member(env, s, pos) == Entry(key.value, value.value, value.pos)
  {
    hide Key, Value, Skip;
  }

  lemma ArrayStep(env: Numerals, s: string, pos: nat, at: nat)
    requires pos < |s| && s[pos] == '[' && Skip(s, pos + 1) == at
    ensures Value(env, s, pos) == Elements(env, s, at, [])
  {
    assert Skip(s, pos) == pos;
    hide Skip, Elements, Members;
  }

  lemma ObjectStep(env: Numerals, s: string, pos: nat, at: nat)
    requires pos < |s| && s[pos] == '{' && Skip(s, pos + 1) == at
    ensures Value(env, s, pos) == Members(env, s, at, [])
  {
    assert Skip(s, pos) == pos;
    hide Skip, Elements, Members;
  }

  lemma BracketIsRead(s: string, pos: nat, bracket: string, w: string, tail: string)
    requires |bracket| == 1 && AllBlank(w) && tail != "" && !IsBlank(tail[0])
    requires At(s, pos, bracket + (w + tail))
    ensures pos < |s| && s[pos] == bracket[0] && Skip(s, pos + 1) == pos + 1 + |w| && At(s, pos + 1 + |w|, tail)
  {
    AtConcat(s, pos, bracket, w + tail);
    AtEntry(s, pos, bracket, 0);
    AtConcat(s, pos + 1, w, tail);
    AtEntry(s, pos + 1 + |w|, tail, 0);
    SkipTo(s, pos + 1, w, pos + 1 + |w|);
  }

  // ----- whole texts -----

  predicate Opens(t: string) {
    t != "" && !IsBlank(t[0]) && t[0] != ']' && t[0] != '}'
  }

  /** A value starts with a character that is neither blank nor a closing
      bracket. */
  lemma TreeStarts(env: Numerals, t: Tree)
    requires IsTree(env, t)
    ensures Opens(Text(t))
  {
    hide IsNumber, AreItems, AreFields, ItemsText, FieldsText, PiecesText;
    if t.Numeral? {
      NumeralStarts(t.text[0]);
    }
  }

  /** Reading a well-formed text gives its document as reread. */
  lemma {:induction false} TreeIsRead(env: Numerals, t: Tree, s: string, pos: nat)
    requires IsTree(env, t) && At(s, pos, Text(t)) && Delimits(s, pos + |Text(t)|)
    ensures Value(env, s, pos) == Ok(Reread(env, Written(t)), pos + |Text(t)|)
    decreases t, 0
  {
    hide IsWord, IsNumeral, IsLiteral, IsTriple, At, Delimits, LiteralText, Value, ConvertValue, AreItems, AreFields;
    match t
    case Word(text, v) =>
      WordIsRead(env, s, pos, text, v);
      RereadWord(env, text, v);
    case Numeral(text, v) =>
      NumeralIsRead(env, s, pos, text, v);
      RereadNumeral(env, text, v);
    case Quoted(l) => QuotedIsRead(env, s, pos, l);
    case Triple(quote, text) => TripleIsRead(env, s, pos, quote, text);
    case Array(blanks, items) => ArrayIsRead(env, blanks, items, s, pos);
    case Object(blanks, fields) => ObjectIsRead(env, blanks, fields, s, pos);
  }

  lemma RereadWord(env: Numerals, text: string, v: Json)
    requires IsWord(text, v)
    ensures Reread(env, v) == v
  {
  }

  lemma RereadNumeral(env: Numerals, text: string, v: Json)
    requires IsNumeral(env, text, v)
    ensures Reread(env, v) == v
  {
  }

  lemma {:induction false} ArrayIsRead(env: Numerals, blanks: string, items: Items, s: string, pos: nat)
    requires AllBlank(blanks) && AreItems(env, items) && At(s, pos, "[" + (blanks + ItemsText(items)))
    ensures Value(env, s, pos)
         == Ok(JArr(RereadItems(env, WrittenItems(items))), pos + 1 + |blanks| + |ItemsText(items)|)
    decreases items, 2
  {
    hide *;
    ItemsStart(env, items);
    BracketIsRead(s, pos, "[", blanks, ItemsText(items));
    ArrayStep(env, s, pos, pos + 1 + |blanks|);
    ItemsAreRead(env, items, s, pos + 1 + |blanks|, []);
    NothingRead(RereadItems(env, WrittenItems(items)));
  }

  lemma NothingRead(items: seq<Json>)
    ensures [] + items == items
  {
  }

  lemma {:induction false} ObjectIsRead(env: Numerals, blanks: string, fields: Fields, s: string, pos: nat)
    requires AllBlank(blanks) && AreFields(env, fields) && At(s, pos, "{" + (blanks + FieldsText(fields)))
    ensures Value(env, s, pos)
         == Ok(JObj(RereadFields(env, [], WrittenFields(fields))), pos + 1 + |blanks| + |FieldsText(fields)|)
    decreases fields, 3
  {
    hide *;
    FieldsStart(env, fields);
    BracketIsRead(s, pos, "{", blanks, FieldsText(fields));
    ObjectStep(env, s, pos, pos + 1 + |blanks|);
    FieldsAreRead(env, fields, s, pos + 1 + |blanks|, []);
  }

  lemma ItemsStart(env: Numerals, items: Items)
    requires AreItems(env, items)
    ensures var t := ItemsText(items); t != "" && !IsBlank(t[0]) && (t[0] == ']' <==> items.NoItems?)
  {
    if items.Item? {
      hide IsTree, Text;
      TreeStarts(env, items.value);
    }
  }

  lemma FieldsStart(env: Numerals, fields: Fields)
    requires AreFields(env, fields)
    ensures var t := FieldsText(fields); t != "" && !IsBlank(t[0]) && (t[0] == '}' <==> fields.NoFields?)
  {
    hide IsTree, Text, PiecesText;
  }

  /** Where the first of some items ends and where the rest starts. */
  lemma ItemsSplit(env: Numerals, items: Items, s: string, pos: nat) returns (end: nat, next: nat)
    requires AreItems(env, items) && items.Item? && At(s, pos, ItemsText(items))
    ensures pos < |s| && s[pos] != ']'
    ensures At(s, pos, Text(items.value)) && end == pos + |Text(items.value)| && Delimits(s, end)
    ensures Separated(s, end, items.gap.Comma?, next) && (items.gap.NoComma? ==> s[next] == ']')
    ensures At(s, next, ItemsText(items.rest)) && next + |ItemsText(items.rest)| == pos + |ItemsText(items)|
  {
    hide *;
    var item, sep, tail := Text(items.value), GapText(items.gap), ItemsText(items.rest);
    end, next := pos + |item|, pos + |item| + |sep|;
    ItemsFirst(env, items);
    AtConcat(s, pos, item, sep + tail);
    GapIsRead(items.gap, s, end, tail);
    ValueOpens(env, items.value, s, pos);
  }

  /** How items are composed. */
  lemma ItemsFirst(env: Numerals, items: Items)
    requires AreItems(env, items) && items.Item?
    ensures ItemsText(items) == Text(items.value) + (GapText(items.gap) + ItemsText(items.rest))
    ensures IsTree(env, items.value) && IsGap(items.gap) && AreItems(env, items.rest)
    ensures var tail := ItemsText(items.rest); tail != "" && !IsBlank(tail[0]) && (items.gap.NoComma? ==> tail[0] == ']')
  {
    hide IsTree, Text, GapText, IsGap;
    ItemsStart(env, items.rest);
  }

  lemma ValueOpens(env: Numerals, t: Tree, s: string, pos: nat)
    requires IsTree(env, t) && At(s, pos, Text(t))
    ensures pos < |s| && s[pos] != ']' && s[pos] != '}'
  {
    TreeStarts(env, t);
    hide Text, IsTree;
    AtEntry(s, pos, Text(t), 0);
  }

  lemma {:induction false} ItemsAreRead(env: Numerals, items: Items, s: string, pos: nat, read: seq<Json>)
    requires AreItems(env, items) && At(s, pos, ItemsText(items))
    ensures Elements(env, s, pos, read)
         == Ok(JArr(read + RereadItems(env, WrittenItems(items))), pos + |ItemsText(items)|)
    decreases items, 1
  {
    hide *;
    if items.NoItems? {
      NoItemsAreRead(env, s, pos, read);
    } else {
      var end, next := ItemsSplit(env, items, s, pos);
      var value := Reread(env, Written(items.value));
      ItemsFirst(env, items);
      TreeIsRead(env, items.value, s, pos);
      ElementStep(env, s, pos, read, value, end, items.gap.Comma?, next);
      ItemsAreRead(env, items.rest, s, next, read + [value]);
      FirstItem(env, items, read);
    }
  }

  lemma NoItemsAreRead(env: Numerals, s: string, pos: nat, read: seq<Json>)
    requires At(s, pos, ItemsText(NoItems))
    ensures Elements(env, s, pos, read)
         == Ok(JArr(read + RereadItems(env, WrittenItems(NoItems))), pos + |ItemsText(NoItems)|)
  {
    AtEntry(s, pos, "]", 0);
    assert read + [] == read;
  }

  lemma FirstItem(env: Numerals, items: Items, read: seq<Json>)
    requires items.Item?
    ensures read + [Reread(env, Written(items.value))] + RereadItems(env, WrittenItems(items.rest))
         == read + RereadItems(env, WrittenItems(items))
  {
    hide Reread, Written;
    assert WrittenItems(items)[1..] == WrittenItems(items.rest);
  }

  // ----- fields -----

  /** Where the first of some fields ends and where the rest starts. */
  lemma FieldsSplit(env: Numerals, fields: Fields, s: string, pos: nat) returns (end: nat, next: nat)
    requires AreFields(env, fields) && fields.Field? && At(s, pos, FieldsText(fields))
    ensures pos < |s| && s[pos] != '}'
    ensures At(s, pos, FieldText(fields.field)) && end == pos + |FieldText(fields.field)| && Delimits(s, end)
    ensures Separated(s, end, fields.gap.Comma?, next) && (fields.gap.NoComma? ==> s[next] == '}')
    ensures At(s, next, FieldsText(fields.rest)) && next + |FieldsText(fields.rest)| == pos + |FieldsText(fields)|
  {
    hide *;
    var field, sep, tail := FieldText(fields.field), GapText(fields.gap), FieldsText(fields.rest);
    end, next := pos + |field|, pos + |field| + |sep|;
    FieldsFirst(env, fields);
    AtConcat(s, pos, field, sep + tail);
    GapIsRead(fields.gap, s, end, tail);
    KeyStarts(env, fields.field, s, pos);
  }

  /** How fields are composed. */
  lemma FieldsFirst(env: Numerals, fields: Fields)
    requires AreFields(env, fields) && fields.Field?
    ensures FieldsText(fields) == FieldText(fields.field) + (GapText(fields.gap) + FieldsText(fields.rest))
    ensures IsField(env, fields.field) && IsGap(fields.gap) && AreFields(env, fields.rest)
    ensures var tail := FieldsText(fields.rest); tail != "" && !IsBlank(tail[0]) && (fields.gap.NoComma? ==> tail[0] == '}')
  {
    hide IsField, FieldText, GapText, IsGap;
    FieldsStart(env, fields.rest);
  }

  lemma KeyStarts(env: Numerals, f: KeyAndValue, s: string, pos: nat)
    requires IsField(env, f) && At(s, pos, FieldText(f))
    ensures pos < |s| && s[pos] != '}'
  {
    hide IsTree, Text, PiecesText;
    AtEntry(s, pos, FieldText(f), 0);
  }

  lemma {:induction false} FieldsAreRead(env: Numerals, fields: Fields, s: string, pos: nat, read: seq<(Json, Json)>)
    requires AreFields(env, fields) && At(s, pos, FieldsText(fields))
    ensures Members(env, s, pos, read)
         == Ok(JObj(RereadFields(env, read, WrittenFields(fields))), pos + |FieldsText(fields)|)
    decreases fields, 2
  {
    hide *;
    if fields.NoFields? {
      NoFieldsAreRead(env, s, pos, read);
    } else {
      var end, next := FieldsSplit(env, fields, s, pos);
      FieldsFirst(env, fields);
      FieldIsRead(env, fields.field, s, pos);
      var e := RereadField(env, WrittenField(fields.field));
      EntryStep(env, s, pos, read, Entry(e.0, e.1, end), fields.gap.Comma?, next);
      FieldsAreRead(env, fields.rest, s, next, Put(read, e.0, e.1));
      FirstField(env, fields, read);
    }
  }

  lemma NoFieldsAreRead(env: Numerals, s: string, pos: nat, read: seq<(Json, Json)>)
    requires At(s, pos, FieldsText(NoFields))
    ensures Members(env, s, pos, read)
         == Ok(JObj(RereadFields(env, read, WrittenFields(NoFields))), pos + |FieldsText(NoFields)|)
  {
    AtEntry(s, pos, "}", 0);
  }

  lemma FirstField(env: Numerals, fields: Fields, read: seq<(Json, Json)>)
    requires fields.Field?
    ensures var e := RereadField(env, WrittenField(fields.field));
            var next := Put(read, e.0, e.1);
            RereadFields(env, read, WrittenFields(fields)) == RereadFields(env, next, WrittenFields(fields.rest))
  {
    hide RereadField, WrittenField, Put;
    assert WrittenFields(fields)[1..] == WrittenFields(fields.rest);
  }

  lemma FieldIsRead(env: Numerals, f: KeyAndValue, s: string, pos: nat)
    requires IsField(env, f) && At(s, pos, FieldText(f)) && Delimits(s, pos + |FieldText(f)|)
    ensures var e := RereadField(env, WrittenField(f));
            Member(env, s, pos) == Entry(e.0, e.1, pos + |FieldText(f)|)
    decreases f, 1
  {
    hide *;
    var p, colon, at := KeyIsRead(env, f, s, pos);
    TreeIsRead(env, f.value, s, at);
    var end := pos + |FieldText(f)|;
    var value := Reread(env, Written(f.value));
    MemberStep(env, s, pos, Ok(ConvertValue(env, Said(f.key.pieces)), p), colon, at, Ok(value, end));
    FieldReread(env, f);
  }

  lemma FieldReread(env: Numerals, f: KeyAndValue)
    ensures RereadField(env, WrittenField(f)) == (ConvertValue(env, Said(f.key.pieces)), Reread(env, Written(f.value)))
  {
    hide ConvertValue;
  }

  /** The key of a field, and where its value starts. */
  lemma KeyIsRead(env: Numerals, f: KeyAndValue, s: string, pos: nat) returns (p: nat, colon: nat, at: nat)
    requires IsField(env, f) && At(s, pos, FieldText(f))
    ensures Key(env, s, pos) == Ok(ConvertValue(env, Said(f.key.pieces)), p)
    ensures Skip(s, p) == colon && colon < |s| && s[colon] == ':' && Skip(s, colon + 1) == at
    ensures IsTree(env, f.value) && At(s, at, Text(f.value)) && at + |Text(f.value)| == pos + |FieldText(f)|
  {
    hide *;
    var key, w1, w2, value := LiteralText(f.key), f.beforeColon, f.afterColon, Text(f.value);
    p := pos + |key|;
    colon, at := p + |w1|, p + |w1| + 1 + |w2|;
    FieldParts(env, f);
    KeyAndRest(s, pos, key, w1, w2, value);
    LiteralIsRead(env, s, pos, f.key);
    KeyStep(env, s, pos);
    ColonIsRead(s, p, w1, w2, value);
  }

  /** How a field is composed. */
  lemma FieldParts(env: Numerals, f: KeyAndValue)
    requires IsField(env, f)
    ensures FieldText(f) == LiteralText(f.key) + (f.beforeColon + (":" + (f.afterColon + Text(f.value))))
    ensures IsLiteral(f.key) && AllBlank(f.beforeColon) && AllBlank(f.afterColon) && IsTree(env, f.value)
    ensures var value := Text(f.value); value != "" && !IsBlank(value[0])
  {
    hide LiteralText, Text, IsLiteral, IsTree;
    TreeStarts(env, f.value);
  }

  lemma KeyAndRest(s: string, pos: nat, key: string, w1: string, w2: string, value: string)
    requires At(s, pos, key + (w1 + (":" + (w2 + value))))
    ensures At(s, pos, key) && At(s, pos + |key|, w1 + (":" + (w2 + value)))
    ensures |key + (w1 + (":" + (w2 + value)))| == |key| + |w1| + 1 + |w2| + |value|
  {
    hide *;
    AtConcat(s, pos, key, w1 + (":" + (w2 + value)));
  }

  lemma ColonIsRead(s: string, pos: nat, w1: string, w2: string, value: string)
    requires AllBlank(w1) && AllBlank(w2) && value != "" && !IsBlank(value[0])
    requires At(s, pos, w1 + (":" + (w2 + value)))
    ensures var colon := Skip(s, pos);
            colon == pos + |w1| && colon < |s| && s[colon] == ':' && Skip(s, colon + 1) == colon + 1 + |w2|
    ensures At(s, pos + |w1| + 1 + |w2|, value)
  {
    hide Skip, At, AllBlank;
    BlanksAreSkipped(s, pos, w1, ":" + (w2 + value));
    AtConcat(s, pos + |w1|, ":", w2 + value);
    BlanksAreSkipped(s, pos + |w1| + 1, w2, value);
  }
}
