/** What the grammar reads is a well-formed text: nothing else is accepted. */
module JsonAccepts {
  import opened Options
  import opened PyStrings
  import opened JsonSpec
  import opened JsonText
  import opened JsonReads
  import Results

  lemma AtSlice(s: string, pos: nat, end: nat)
    requires pos <= end <= |s|
    ensures At(s, pos, s[pos..end])
  {
  }

  lemma AtJoin(s: string, pos: nat, a: string, b: string)
    requires At(s, pos, a) && At(s, pos + |a|, b)
    ensures At(s, pos, a + b) && |a + b| == |a| + |b|
  {
    AtBounds(s, pos, a);
    AtBounds(s, pos + |a|, b);
    forall i | 0 <= i < |a + b| ensures s[pos..pos + |a + b|][i] == (a + b)[i] {
      assert s[pos..pos + |a + b|][i] == s[pos + i];
      assert i >= |a| ==> s[pos + |a| + (i - |a|)] == b[i - |a|];
    }
  }

  /** What is skipped are blanks. */
  lemma {:induction false} SkippedBlanks(s: string, pos: nat)
    requires pos <= |s|
    ensures var p := Skip(s, pos); AllBlank(s[pos..p]) && At(s, pos, s[pos..p])
    decreases |s| - pos
  {
    if pos < |s| && IsBlank(s[pos]) {
      SkippedBlanks(s, pos + 1);
      var p := Skip(s, pos);
      assert s[pos..p] == [s[pos]] + s[pos + 1..p];
    }
  }

  // ----- strings -----

  lemma PieceOf(env: Numerals, s: string, pos: nat, quote: char, read: string) returns (p: Piece)
    requires StringRest(env, s, pos, quote, read).Ok? && quote != '\\' && pos < |s| && s[pos] != quote
    ensures IsPiece(p, quote) && At(s, pos, PieceText(p)) && PieceText(p) != ""
    ensures StringRest(env, s, pos, quote, read) == StringRest(env, s, pos + |PieceText(p)|, quote, read + [p.c])
  {
    p := if s[pos] == '\\' then Escaped(s[pos + 1], Unescape(s[pos + 1])) else Plain(s[pos]);
    PieceHere(s, pos, p);
  }

  lemma StringEnds(env: Numerals, s: string, pos: nat, quote: char, read: string)
    requires StringRest(env, s, pos, quote, read).Ok? && quote != '\\'
    ensures pos < |s|
    ensures s[pos] == quote ==> StringRest(env, s, pos, quote, read) == Ok(ConvertValue(env, read + Said([])), pos + 1)
    ensures s[pos] == quote ==> At(s, pos, PiecesText([]) + [quote])
  {
    assert read + Said([]) == read;
    assert PiecesText([]) + [quote] == [quote];
  }

  lemma {:induction false} PiecesOf(env: Numerals, s: string, pos: nat, quote: char, read: string) returns (pieces: seq<Piece>)
    requires StringRest(env, s, pos, quote, read).Ok? && quote != '\\'
    ensures forall i :: 0 <= i < |pieces| ==> IsPiece(pieces[i], quote)
    ensures At(s, pos, PiecesText(pieces) + [quote])
    ensures var r := StringRest(env, s, pos, quote, read);
            r == Ok(ConvertValue(env, read + Said(pieces)), pos + |PiecesText(pieces)| + 1)
    decreases |s| - pos
  {
    hide *;
    StringEnds(env, s, pos, quote, read);
    if s[pos] == quote {
      pieces := [];
      NoPieces();
    } else {
      var p := PieceOf(env, s, pos, quote, read);
      AtBounds(s, pos, PieceText(p));
      var rest := PiecesOf(env, s, pos + |PieceText(p)|, quote, read + [p.c]);
      pieces := [p] + rest;
      assert pieces[1..] == rest;
      FirstPiece(pieces, quote, read);
      AtJoin(s, pos, PieceText(p), PiecesText(rest) + [quote]);
    }
  }

  lemma NoPieces()
    ensures PiecesText([]) == ""
  {
  }

  lemma PieceHere(s: string, pos: nat, p: Piece)
    requires pos + |PieceText(p)| <= |s|
    requires if p.Plain? then s[pos] == p.c else s[pos] == '\\' && s[pos + 1] == p.letter
    ensures At(s, pos, PieceText(p))
  {
  }

  lemma LiteralOf(env: Numerals, s: string, pos: nat, quote: char) returns (l: Literal)
    requires IsQuote(quote) && At(s, pos, [quote]) && StringRest(env, s, pos + 1, quote, "").Ok?
    ensures IsLiteral(l) && At(s, pos, LiteralText(l))
    ensures StringRest(env, s, pos + 1, quote, "") == Ok(ConvertValue(env, Said(l.pieces)), pos + |LiteralText(l)|)
  {
    assert quote != '\\';
    hide PiecesText, Said, StringRest, ConvertValue, At;
    var pieces := PiecesOf(env, s, pos + 1, quote, "");
    l := Literal(quote, pieces);
    assert "" + Said(pieces) == Said(pieces);
    AtJoin(s, pos, [quote], PiecesText(pieces) + [quote]);
  }

  /** Where triple quotes are closed. */
  lemma {:induction false} TripleEnd(env: Numerals, s: string, pos: nat, quotes: string, read: string) returns (end: nat)
    requires |quotes| == 3 && TripleRest(env, s, pos, quotes, read).Ok?
    ensures pos <= end && At(s, end, quotes) && forall i :: pos <= i < end ==> !At(s, i, quotes)
    decreases |s| - pos
  {
    hide *;
    SliceIsAt(s, pos, quotes);
    if At(s, pos, quotes) {
      end := pos;
    } else {
      OneMoreRead(env, s, pos, quotes, read);
      end := TripleEnd(env, s, pos + 1, quotes, read + [s[pos]]);
    }
  }

  lemma TripleOf(env: Numerals, s: string, pos: nat, quote: char) returns (text: string)
    requires IsQuote(quote) && At(s, pos, [quote, quote, quote])
    requires TripleRest(env, s, pos + 3, [quote, quote, quote], "").Ok?
    ensures IsTriple(quote, text) && At(s, pos, Text(Triple(quote, text)))
    ensures TripleRest(env, s, pos + 3, [quote, quote, quote], "")
         == Ok(ConvertValue(env, text), pos + |Text(Triple(quote, text))|)
  {
    var quotes := [quote, quote, quote];
    hide ConvertValue, TripleRest, At;
    var end := TripleEnd(env, s, pos + 3, quotes, "");
    TripleRestIs(env, s, pos + 3, quotes, "", end);
    text := s[pos + 3..end];
    assert "" + text == text;
    AtBounds(s, end, quotes);
    AtSlice(s, pos + 3, end);
    AtJoin(s, pos + 3, text, quotes);
    AtJoin(s, pos, quotes, text + quotes);
    forall i | 0 <= i < |text| ensures !At(text + quotes, i, quotes) {
      WithinText(s, pos + 3, text + quotes, i, quotes);
    }
  }

  // ----- constants and numbers -----

  lemma {:induction false} NumberChars(s: string, pos: nat)
    requires pos <= |s|
    ensures forall i :: pos <= i < NumberEnd(s, pos) ==> s[i] in "-+0123456789.eE"
    decreases |s| - pos
  {
    if pos < |s| && IsNumeric(s[pos]) {
      NumericChar(s[pos]);
      NumberChars(s, pos + 1);
    }
  }

  lemma NumericChar(c: char)
    requires IsNumeric(c)
    ensures c in "-+0123456789.eE" && (c != 'e' && c != 'E' ==> c in "-+0123456789.")
  {
  }

  lemma NumeralOf(env: Numerals, s: string, pos: nat) returns (text: string)
    requires pos < |s| && IsNumeric(s[pos]) && s[pos] != 'e' && s[pos] != 'E' && Number(env, s, pos).Ok?
    ensures IsNumeral(env, text, Number(env, s, pos).value)
    ensures At(s, pos, text) && Number(env, s, pos).pos == pos + |text|
  {
    hide IsNumeric, NumberOf, IsNumber;
    var end := NumberEnd(s, pos);
    text := s[pos..end];
    NumberChars(s, pos);
    NumericChar(s[pos]);
    NumberOfIs(env, text, Number(env, s, pos).value);
  }

  lemma WordAt(s: string, pos: nat, lower: string, upper: string)
    requires Constant(lower, upper) && Lower(Slice(s, pos, pos + |lower|)) == lower
    ensures pos + |lower| <= |s| && Spells(s[pos..pos + |lower|], lower, upper) && At(s, pos, s[pos..pos + |lower|])
  {
    LowerSpelling(Slice(s, pos, pos + |lower|), lower, upper);
    hide Lower, Spells;
  }

  lemma BareOf(env: Numerals, s: string, pos: nat) returns (t: Tree)
    requires pos < |s| && Bare(env, s, pos).Ok?
    ensures IsTree(env, t) && At(s, pos, Text(t))
    ensures Bare(env, s, pos) == Ok(Reread(env, Written(t)), pos + |Text(t)|)
  {
    hide Lower, Slice, Number, Spells, IsNumeral, At, IsNumeric;
    if Lower(Slice(s, pos, pos + 4)) == "true" {
      WordAt(s, pos, "true", "TRUE");
      t := Word(s[pos..pos + 4], JBool(true));
    } else if Lower(Slice(s, pos, pos + 5)) == "false" {
      WordAt(s, pos, "false", "FALSE");
      t := Word(s[pos..pos + 5], JBool(false));
    } else if Lower(Slice(s, pos, pos + 4)) == "null" {
      WordAt(s, pos, "null", "NULL");
      t := Word(s[pos..pos + 4], JNull);
    } else {
      var text := NumeralOf(env, s, pos);
      RereadNumeral(env, text, Number(env, s, pos).value);
      t := Numeral(text, Number(env, s, pos).value);
    }
  }

  // ----- values -----

  /** The text `t` stands at `pos`, and reading it there is reading its document. */
  ghost predicate ReadAs(env: Numerals, s: string, pos: nat, t: Tree, r: Parsed) {
    IsTree(env, t) && At(s, pos, Text(t)) && r == Ok(Reread(env, Written(t)), pos + |Text(t)|)
  }

  /** Every value that is read is the text of a document, read as that
      document. */
  lemma {:induction false} TreeOf(env: Numerals, s: string, pos: nat) returns (t: Tree)
    requires Value(env, s, pos).Ok?
    ensures ReadAs(env, s, Skip(s, pos), t, Value(env, s, pos))
    decreases |s| - pos, 1
  {
    var p := Skip(s, pos);
    ValueSteps(env, s, pos);
    hide Value, Skip, Members, Elements, StringRest, TripleRest, Bare, TripleAt, ReadAs;
    if s[p] == '{' {
      t := ObjectOf(env, s, p);
    } else if s[p] == '[' {
      t := ArrayOf(env, s, p);
    } else if TripleAt(s, p) {
      t := TripleTreeOf(env, s, p);
    } else if IsQuote(s[p]) {
      t := QuotedOf(env, s, p);
    } else {
      t := BareTreeOf(env, s, p);
    }
  }

  /** The branch that the first character selects. */
  lemma ValueSteps(env: Numerals, s: string, pos: nat)
    requires Value(env, s, pos).Ok?
    ensures var p := Skip(s, pos);
            && pos <= p < |s|
            && Value(env, s, pos)
            == (if s[p] == '{' then Members(env, s, Skip(s, p + 1), [])
                else if s[p] == '[' then Elements(env, s, Skip(s, p + 1), [])
                else if TripleAt(s, p) then TripleRest(env, s, p + 3, Slice(s, p, p + 3), "")
                else if IsQuote(s[p]) then StringRest(env, s, p + 1, s[p], "")
                else Bare(env, s, p))
  {
    hide Members, Elements, TripleAt, StringRest, TripleRest, Bare;
  }

  lemma BareTreeOf(env: Numerals, s: string, p: nat) returns (t: Tree)
    requires p < |s| && Bare(env, s, p).Ok?
    ensures ReadAs(env, s, p, t, Bare(env, s, p))
  {
    t := BareOf(env, s, p);
  }

  lemma QuotedOf(env: Numerals, s: string, p: nat) returns (t: Tree)
    requires p < |s| && IsQuote(s[p]) && StringRest(env, s, p + 1, s[p], "").Ok?
    ensures ReadAs(env, s, p, t, StringRest(env, s, p + 1, s[p], ""))
  {
    var l := LiteralOf(env, s, p, s[p]);
    t := Quoted(l);
    hide StringRest, ConvertValue, LiteralText, IsLiteral;
  }

  lemma TripleTreeOf(env: Numerals, s: string, p: nat) returns (t: Tree)
    requires TripleAt(s, p) && TripleRest(env, s, p + 3, Slice(s, p, p + 3), "").Ok?
    ensures ReadAs(env, s, p, t, TripleRest(env, s, p + 3, Slice(s, p, p + 3), ""))
  {
    var quotes := Slice(s, p, p + 3);
    SliceIsAt(s, p, quotes);
    assert quotes == [quotes[0], quotes[0], quotes[0]];
    hide TripleRest, ConvertValue, Slice, IsTriple;
    var text := TripleOf(env, s, p, quotes[0]);
    t := Triple(quotes[0], text);
  }

  lemma ArrayOf(env: Numerals, s: string, p: nat) returns (t: Tree)
    requires p < |s| && s[p] == '[' && Elements(env, s, Skip(s, p + 1), []).Ok?
    ensures ReadAs(env, s, p, t, Elements(env, s, Skip(s, p + 1), []))
    decreases |s| - p, 0
  {
    hide *;
    var blanks := BlanksOf(s, p + 1);
    var items := ItemsOf(env, s, Skip(s, p + 1), []);
    t := Array(blanks, items);
    OpenedAt(s, p, "[", blanks, ItemsText(items));
    NothingRead(RereadItems(env, WrittenItems(items)));
    IsArray(env, s, p, blanks, items);
  }

  /** The blanks from `pos` to the next token. */
  lemma BlanksOf(s: string, pos: nat) returns (w: string)
    requires pos <= |s|
    ensures AllBlank(w) && At(s, pos, w) && Skip(s, pos) == pos + |w|
    ensures Skip(s, pos) < |s| ==> !IsBlank(s[Skip(s, pos)])
  {
    SkippedBlanks(s, pos);
    w := s[pos..Skip(s, pos)];
    hide Skip, AllBlank;
  }

  lemma OpenedAt(s: string, p: nat, bracket: string, blanks: string, tail: string)
    requires p < |s| && |bracket| == 1 && s[p] == bracket[0]
    requires At(s, p + 1, blanks) && At(s, p + 1 + |blanks|, tail)
    ensures At(s, p, bracket + (blanks + tail)) && |bracket + (blanks + tail)| == 1 + |blanks| + |tail|
  {
    AtJoin(s, p + 1, blanks, tail);
    AtJoin(s, p, bracket, blanks + tail);
  }

  lemma IsArray(env: Numerals, s: string, p: nat, blanks: string, items: Items)
    requires AllBlank(blanks) && AreItems(env, items) && At(s, p, "[" + (blanks + ItemsText(items)))
    ensures ReadAs(env, s, p, Array(blanks, items),
                   Ok(JArr(RereadItems(env, WrittenItems(items))), p + 1 + |blanks| + |ItemsText(items)|))
  {
    hide At, AllBlank, AreItems, ItemsText, WrittenItems, RereadItems;
  }

  lemma ObjectOf(env: Numerals, s: string, p: nat) returns (t: Tree)
    requires p < |s| && s[p] == '{' && Members(env, s, Skip(s, p + 1), []).Ok?
    ensures ReadAs(env, s, p, t, Members(env, s, Skip(s, p + 1), [])) && t.Object?
    decreases |s| - p, 0
  {
    hide *;
    var blanks := BlanksOf(s, p + 1);
    var fields := FieldsOf(env, s, Skip(s, p + 1), []);
    t := Object(blanks, fields);
    OpenedAt(s, p, "{", blanks, FieldsText(fields));
    IsObject(env, s, p, blanks, fields);
  }

  lemma IsObject(env: Numerals, s: string, p: nat, blanks: string, fields: Fields)
    requires AllBlank(blanks) && AreFields(env, fields) && At(s, p, "{" + (blanks + FieldsText(fields)))
    ensures ReadAs(env, s, p, Object(blanks, fields),
                   Ok(JObj(RereadFields(env, [], WrittenFields(fields))), p + 1 + |blanks| + |FieldsText(fields)|))
  {
    hide At, AllBlank, AreFields, FieldsText, WrittenFields, RereadFields;
  }

  // ----- items and fields -----

  /** The blanks, the comma and the blanks behind an entry. */
  lemma GapOf(s: string, pos: nat) returns (g: Gap, next: nat)
    requires pos <= |s| && Skip(s, pos) < |s| && s[Skip(s, pos)] == ','
    ensures IsGap(g) && g.Comma? && At(s, pos, GapText(g)) && next == Skip(s, Skip(s, pos) + 1) == pos + |GapText(g)|
  {
    var before := BlanksOf(s, pos);
    var p := pos + |before|;
    var after := BlanksOf(s, p + 1);
    g, next := Comma(before, after), Skip(s, p + 1);
    hide *;
    CommaAt(s, p);
    AtJoin(s, p, ",", after);
    AtJoin(s, pos, before, "," + after);
    CommaGap(before, after);
  }

  lemma CommaAt(s: string, pos: nat)
    requires pos < |s| && s[pos] == ','
    ensures At(s, pos, ",")
  {
  }

  lemma CommaGap(before: string, after: string)
    requires AllBlank(before) && AllBlank(after)
    ensures IsGap(Comma(before, after)) && GapText(Comma(before, after)) == before + ("," + after)
  {
  }

  lemma LastGapOf(s: string, pos: nat) returns (g: Gap)
    requires pos <= |s| && Skip(s, pos) < |s|
    ensures IsGap(g) && g.NoComma? && At(s, pos, GapText(g)) && Skip(s, pos) == pos + |GapText(g)|
  {
    SkippedBlanks(s, pos);
    g := NoComma(s[pos..Skip(s, pos)]);
  }

  lemma NoBlanks(s: string, pos: nat)
    requires pos < |s| && !IsBlank(s[pos])
    ensures Skip(s, pos) == pos
  {
  }

  /** What has been read when there is an item at `pos`. */
  lemma ElementsSteps(env: Numerals, s: string, pos: nat, read: seq<Json>)
    requires Elements(env, s, pos, read).Ok?
    ensures pos < |s|
    ensures s[pos] == ']' ==> Elements(env, s, pos, read) == Ok(JArr(read), pos + 1)
    ensures s[pos] != ']' ==>
      var v := Value(env, s, pos);
      && v.Ok? && v.pos <= |s|
      && var p := Skip(s, v.pos);
         && p < |s| && (s[p] == ',' || s[p] == ']')
         && Elements(env, s, pos, read)
         == (if s[p] == ',' then Elements(env, s, Skip(s, p + 1), read + [v.value]) else Ok(JArr(read + [v.value]), p + 1))
  {
    hide Value, Skip;
  }

  lemma ItemJoin(env: Numerals, s: string, pos: nat, t: Tree, v: Parsed, g: Gap, rest: Items, read: seq<Json>)
    requires ReadAs(env, s, pos, t, v) && v.Ok?
    requires IsGap(g) && At(s, v.pos, GapText(g)) && (rest.Item? ==> g.Comma?)
    requires AreItems(env, rest) && At(s, v.pos + |GapText(g)|, ItemsText(rest))
    ensures var items := Item(t, g, rest);
            && AreItems(env, items) && At(s, pos, ItemsText(items))
            && pos + |ItemsText(items)| == v.pos + |GapText(g)| + |ItemsText(rest)|
            && read + [v.value] + RereadItems(env, WrittenItems(rest)) == read + RereadItems(env, WrittenItems(items))
  {
    hide At, IsTree, Text, GapText, IsGap, Reread, Written, RereadItems, WrittenItems;
    var items := Item(t, g, rest);
    AtJoin(s, v.pos, GapText(g), ItemsText(rest));
    AtJoin(s, pos, Text(t), GapText(g) + ItemsText(rest));
    FirstItem(env, items, read);
  }

  lemma CloseItems(env: Numerals, s: string, pos: nat)
    requires pos < |s| && s[pos] == ']'
    ensures AreItems(env, NoItems) && At(s, pos, ItemsText(NoItems)) && |ItemsText(NoItems)| == 1
    ensures RereadItems(env, WrittenItems(NoItems)) == []
  {
  }

  lemma {:induction false} ItemsOf(env: Numerals, s: string, pos: nat, read: seq<Json>) returns (items: Items)
    requires Elements(env, s, pos, read).Ok? && (pos < |s| ==> !IsBlank(s[pos]))
    ensures AreItems(env, items) && At(s, pos, ItemsText(items))
    ensures Elements(env, s, pos, read)
         == Ok(JArr(read + RereadItems(env, WrittenItems(items))), pos + |ItemsText(items)|)
    decreases |s| - pos, 2
  {
    hide *;
    ElementsSteps(env, s, pos, read);
    if s[pos] == ']' {
      items := NoItems;
      CloseItems(env, s, pos);
      NothingBehind(read);
    } else {
      NoBlanks(s, pos);
      var v := Value(env, s, pos);
      var t := TreeOf(env, s, pos);
      var p := Skip(s, v.pos);
      var rest, g := NoItems, NoComma("");
      if s[p] == ',' {
        var next;
        g, next := GapOf(s, v.pos);
        rest := ItemsOf(env, s, next, read + [v.value]);
      } else {
        g := LastGapOf(s, v.pos);
        CloseItems(env, s, p);
        NothingBehind(read + [v.value]);
      }
      items := Item(t, g, rest);
      ItemJoin(env, s, pos, t, v, g, rest, read);
    }
  }

  lemma NothingBehind(read: seq<Json>)
    ensures read + [] == read
  {
  }

  /** What has been read when there is a field at `pos`. */
  lemma MembersSteps(env: Numerals, s: string, pos: nat, read: seq<(Json, Json)>)
    requires Members(env, s, pos, read).Ok?
    ensures pos < |s|
    ensures s[pos] == '}' ==> Members(env, s, pos, read) == Ok(JObj(read), pos + 1)
    ensures s[pos] != '}' ==>
      var e := Member(env, s, pos);
      && e.Entry? && e.pos <= |s|
      && var p := Skip(s, e.pos);
         var next := Put(read, e.key, e.value);
         && p < |s| && (s[p] == ',' || s[p] == '}')
         && Members(env, s, pos, read)
         == (if s[p] == ',' then Members(env, s, Skip(s, p + 1), next) else Ok(JObj(next), p + 1))
  {
    hide Member, Skip, Put;
  }

  ghost predicate FieldReadAs(env: Numerals, s: string, pos: nat, f: KeyAndValue, e: Entry) {
    && IsField(env, f) && At(s, pos, FieldText(f))
    && e == Entry(RereadField(env, WrittenField(f)).0, RereadField(env, WrittenField(f)).1, pos + |FieldText(f)|)
  }

  lemma MemberSteps(env: Numerals, s: string, pos: nat) returns (key: Parsed, colon: nat, v: Parsed)
    requires Member(env, s, pos).Entry?
    ensures key == Key(env, s, pos) && key.Ok? && key.pos <= |s|
    ensures colon == Skip(s, key.pos) && colon < |s| && s[colon] == ':'
    ensures v == Value(env, s, Skip(s, colon + 1)) && v.Ok?
    ensures Member(env, s, pos) == Entry(key.value, v.value, v.pos)
  {
    hide Key, Skip, Value;
    key := Key(env, s, pos);
    colon := Skip(s, key.pos);
    v := Value(env, s, Skip(s, colon + 1));
  }

  lemma KeyOf(env: Numerals, s: string, pos: nat) returns (l: Literal)
    requires pos < |s| && !IsBlank(s[pos]) && Key(env, s, pos).Ok?
    ensures IsLiteral(l) && At(s, pos, LiteralText(l))
    ensures Key(env, s, pos) == Ok(ConvertValue(env, Said(l.pieces)), pos + |LiteralText(l)|)
  {
    assert Skip(s, pos) == pos;
    hide StringRest, IsLiteral, LiteralText, ConvertValue, Said;
    l := LiteralOf(env, s, pos, s[pos]);
  }

  lemma {:induction false} FieldOf(env: Numerals, s: string, pos: nat) returns (f: KeyAndValue)
    requires pos < |s| && !IsBlank(s[pos]) && Member(env, s, pos).Entry?
    ensures FieldReadAs(env, s, pos, f, Member(env, s, pos))
    decreases |s| - pos, 2
  {
    hide *;
    var key, colon, v := MemberSteps(env, s, pos);
    var l := KeyOf(env, s, pos);
    var w1 := BlanksOf(s, key.pos);
    var w2 := BlanksOf(s, colon + 1);
    var t := TreeOf(env, s, Skip(s, colon + 1));
    SkipAgain(s, colon + 1);
    f := KeyAndValue(l, w1, w2, t);
    FieldJoin(env, s, pos, f, v);
  }

  lemma SkipAgain(s: string, pos: nat)
    ensures Skip(s, Skip(s, pos)) == Skip(s, pos)
  {
    var p := Skip(s, pos);
    if p < |s| {
      NoBlanks(s, p);
    }
  }

  lemma FieldJoin(env: Numerals, s: string, pos: nat, f: KeyAndValue, v: Parsed)
    requires IsLiteral(f.key) && At(s, pos, LiteralText(f.key)) && AllBlank(f.beforeColon) && AllBlank(f.afterColon)
    requires var colon := pos + |LiteralText(f.key)| + |f.beforeColon|;
             && At(s, colon - |f.beforeColon|, f.beforeColon) && colon < |s| && s[colon] == ':'
             && At(s, colon + 1, f.afterColon) && ReadAs(env, s, colon + 1 + |f.afterColon|, f.value, v)
    ensures v.Ok?
    ensures FieldReadAs(env, s, pos, f, Entry(ConvertValue(env, Said(f.key.pieces)), v.value, v.pos))
  {
    hide IsLiteral, LiteralText, AllBlank, At, IsTree, Text, Said, ConvertValue, Written, RereadField, WrittenField;
    var key, w1, w2, value := LiteralText(f.key), f.beforeColon, f.afterColon, Text(f.value);
    var colon := pos + |key| + |w1|;
    AtJoin(s, colon + 1, w2, value);
    ColonAt(s, colon);
    AtJoin(s, colon, ":", w2 + value);
    AtJoin(s, pos + |key|, w1, ":" + (w2 + value));
    AtJoin(s, pos, key, w1 + (":" + (w2 + value)));
    FieldReread(env, f);
  }

  lemma ColonAt(s: string, pos: nat)
    requires pos < |s| && s[pos] == ':'
    ensures At(s, pos, ":")
  {
  }

  lemma FieldsJoin(env: Numerals, s: string, pos: nat, f: KeyAndValue, e: Entry, g: Gap, rest: Fields, read: seq<(Json, Json)>)
    requires FieldReadAs(env, s, pos, f, e)
    requires IsGap(g) && At(s, e.pos, GapText(g)) && (rest.Field? ==> g.Comma?)
    requires AreFields(env, rest) && At(s, e.pos + |GapText(g)|, FieldsText(rest))
    ensures var fields := Field(f, g, rest);
            var next := Put(read, e.key, e.value);
            && AreFields(env, fields) && At(s, pos, FieldsText(fields))
            && pos + |FieldsText(fields)| == e.pos + |GapText(g)| + |FieldsText(rest)|
            && RereadFields(env, next, WrittenFields(rest)) == RereadFields(env, read, WrittenFields(fields))
  {
    hide At, IsField, FieldText, GapText, IsGap, RereadField, WrittenField, RereadFields, WrittenFields, Put;
    var fields := Field(f, g, rest);
    AtJoin(s, e.pos, GapText(g), FieldsText(rest));
    AtJoin(s, pos, FieldText(f), GapText(g) + FieldsText(rest));
    FirstField(env, fields, read);
  }

  lemma CloseFields(env: Numerals, s: string, pos: nat, read: seq<(Json, Json)>)
    requires pos < |s| && s[pos] == '}'
    ensures AreFields(env, NoFields) && At(s, pos, FieldsText(NoFields)) && |FieldsText(NoFields)| == 1
    ensures RereadFields(env, read, WrittenFields(NoFields)) == read
  {
  }

  lemma {:induction false} FieldsOf(env: Numerals, s: string, pos: nat, read: seq<(Json, Json)>) returns (fields: Fields)
    requires Members(env, s, pos, read).Ok? && (pos < |s| ==> !IsBlank(s[pos]))
    ensures AreFields(env, fields) && At(s, pos, FieldsText(fields))
    ensures Members(env, s, pos, read)
         == Ok(JObj(RereadFields(env, read, WrittenFields(fields))), pos + |FieldsText(fields)|)
    decreases |s| - pos, 3
  {
    hide *;
    MembersSteps(env, s, pos, read);
    if s[pos] == '}' {
      fields := NoFields;
      CloseFields(env, s, pos, read);
    } else {
      var e := Member(env, s, pos);
      var f := FieldOf(env, s, pos);
      var p, next := Skip(s, e.pos), Put(read, e.key, e.value);
      var rest, g := NoFields, NoComma("");
      if s[p] == ',' {
        var at;
        g, at := GapOf(s, e.pos);
        rest := FieldsOf(env, s, at, next);
      } else {
        g := LastGapOf(s, e.pos);
        CloseFields(env, s, p, next);
      }
      fields := Field(f, g, rest);
      FieldsJoin(env, s, pos, f, e, g, rest, read);
    }
  }

  // ----- the whole text -----

  lemma {:induction false} FieldsEnd(fields: Fields)
    ensures var t := FieldsText(fields); t != "" && t[|t| - 1] == '}'
  {
    if fields.Field? {
      hide FieldText, GapText;
      FieldsEnd(fields.rest);
    }
  }

  lemma ObjectEnds(t: Tree)
    requires t.Object?
    ensures var text := Text(t); |text| >= 2 && text[0] == '{' && text[|text| - 1] == '}'
  {
    FieldsEnd(t.fields);
    hide FieldsText;
  }

  lemma FirstBrace(lead: string, t: string)
    requires '{' !in lead && t != "" && t[0] == '{'
    ensures IndexOf(lead + t, '{', 0) == Some(|lead|)
  {
    var s := lead + t;
    assert s[|lead|] == '{' && s[0..] == s;
    assert forall i :: 0 <= i < |lead| ==> s[i] == lead[i];
  }

  lemma LastBrace(front: string, trail: string)
    requires '}' !in trail && front != "" && front[|front| - 1] == '}'
    ensures AfterLast(front + trail, '}') == |front|
  {
    var s := front + trail;
    assert forall i :: 0 <= i < |trail| ==> s[|front| + i] == trail[i];
    assert s[|front| - 1] == '}';
  }

  lemma StripBraces(t: string)
    requires |t| >= 2 && t[0] == '{' && t[|t| - 1] == '}'
    ensures Strip(t) == t
  {
  }

  lemma ObjectSlice(lead: string, t: string, trail: string)
    requires '{' !in lead && '}' !in trail
    requires |t| >= 2 && t[0] == '{' && t[|t| - 1] == '}'
    ensures var text := lead + t + trail;
            IndexOf(text, '{', 0) == Some(|lead|) && Slice(text, |lead|, AfterLast(text, '}')) == t
  {
    assert lead + t + trail == lead + (t + trail);
    FirstBrace(lead, t + trail);
    LastBrace(lead + t, trail);
  }

  lemma DocumentIsRead(env: Numerals, t: Tree)
    requires IsTree(env, t)
    ensures Document(env, Text(t)) == Found(Reread(env, Written(t)))
  {
    hide IsTree, Text, Value, Reread, Written;
    assert At(Text(t), 0, Text(t));
    TreeIsRead(env, t, Text(t), 0);
  }

  /** Leading text without an opening brace and trailing text without a closing
      one do not matter; in between, an object is read however it is written. */
  lemma ObjectIsExtracted(env: Numerals, t: Tree, lead: string, trail: string)
    requires IsTree(env, t) && t.Object? && '{' !in lead && '}' !in trail
    ensures Extract(env, lead + Text(t) + trail) == Found(Reread(env, Written(t)))
  {
    hide IsTree, Text, Document, IndexOf, AfterLast, Strip, Slice;
    ObjectEnds(t);
    ObjectSlice(lead, Text(t), trail);
    StripBraces(Text(t));
    DocumentIsRead(env, t);
  }

  /** `text` is a well-formed object, read as `v`, between `lead` and `trail`. */
  ghost predicate ObjectIn(env: Numerals, text: string, v: Json, lead: string, t: Tree, trail: string) {
    && '{' !in lead && '}' !in trail && text == lead + Text(t) + trail
    && t.Object? && IsTree(env, t) && v == Reread(env, Written(t))
  }

  lemma NothingBehindBrace(s: string, end: nat)
    requires end <= |s| && s != "" && s[|s| - 1] == '}' && Skip(s, end) == |s|
    ensures end == |s|
  {
    hide *;
    SkippedBlanks(s, end);
    if end < |s| {
      LastBlank(s, end);
    }
  }

  lemma LastBlank(s: string, end: nat)
    requires end < |s| && AllBlank(s[end..|s|])
    ensures s[|s| - 1] != '}'
  {
    assert s[end..|s|][|s| - 1 - end] == s[|s| - 1];
  }

  lemma DocumentSteps(env: Numerals, s: string) returns (at: nat)
    requires s != "" && s[0] == '{' && s[|s| - 1] == '}' && Document(env, s).Found?
    ensures at == Skip(s, 1) && Members(env, s, at, []) == Ok(Document(env, s).value, |s|)
  {
    at := Skip(s, 1);
    ObjectStep(env, s, 0, at);
    hide Value, Members, Skip;
    NothingBehindBrace(s, Members(env, s, at, []).pos);
  }

  lemma DocumentOf(env: Numerals, s: string) returns (t: Tree)
    requires s != "" && s[0] == '{' && s[|s| - 1] == '}' && Document(env, s).Found?
    ensures t.Object? && IsTree(env, t) && s == Text(t) && Document(env, s) == Found(Reread(env, Written(t)))
  {
    var at := DocumentSteps(env, s);
    hide Document, IsTree, Text, Reread, Written, Members, Skip;
    t := ObjectOf(env, s, 0);
    assert s[0..|s|] == s;
  }

  lemma ExtractSteps(env: Numerals, text: string) returns (start: nat, end: nat)
    requires Extract(env, text).Found?
    ensures IndexOf(text, '{', 0) == Some(start) && end == AfterLast(text, '}')
    ensures Extract(env, text) == Document(env, Strip(Slice(text, start, end)))
  {
    hide Document, IndexOf, AfterLast, Strip, Slice;
    start, end := IndexOf(text, '{', 0).value, AfterLast(text, '}');
  }

  lemma NothingIsFound(env: Numerals)
    ensures Document(env, Strip("")).Failed?
  {
    assert Strip("") == "";
  }

  lemma Middle(text: string, start: nat, end: nat)
    requires start < end <= |text|
    ensures text == text[..start] + Slice(text, start, end) + text[end..] && text[0..start] == text[..start]
    ensures var m := Slice(text, start, end); |m| == end - start && m[0] == text[start] && m[|m| - 1] == text[end - 1]
  {
  }

  /** The middle between the first opening and the last closing brace. */
  lemma MiddleOf(env: Numerals, text: string) returns (lead: string, m: string, trail: string)
    requires Extract(env, text).Found?
    ensures '{' !in lead && '}' !in trail && text == lead + m + trail
    ensures m != "" && m[0] == '{' && m[|m| - 1] == '}' && Extract(env, text) == Document(env, m)
  {
    hide Document, Strip, IndexOf, AfterLast;
    var start, end := ExtractSteps(env, text);
    NothingIsFound(env);
    assert start < end;
    Middle(text, start, end);
    lead, m, trail := text[..start], Slice(text, start, end), text[end..];
    hide Extract, Slice;
    StripBraces(m);
  }

  /** What is accepted, and as what: a text from which something is extracted
      is an object, written as any writer may, between a text without an
      opening brace and one without a closing brace. */
  lemma ExtractIff(env: Numerals, text: string, v: Json)
    ensures Extract(env, text) == Found(v) <==> exists lead, t, trail :: ObjectIn(env, text, v, lead, t, trail)
  {
    hide Extract, Document, Reread, Text, IsTree, Written;
    if Extract(env, text) == Found(v) {
      var lead, m, trail := MiddleOf(env, text);
      var t := DocumentOf(env, m);
      assert ObjectIn(env, text, v, lead, t, trail);
    }
    if lead, t, trail :| ObjectIn(env, text, v, lead, t, trail) {
      ObjectIsExtracted(env, t, lead, trail);
    }
  }

  // ----- failures -----

  lemma {:induction false} StringFails(env: Numerals, s: string, pos: nat, quote: char, read: string)
    ensures var r := StringRest(env, s, pos, quote, read); r.Err? ==> r.error == Results.ValueError
    decreases |s| - pos
  {
    hide Unescape, ConvertValue;
    if pos < |s| {
      if s[pos] == '\\' {
        if pos + 1 < |s| {
          StringFails(env, s, pos + 2, quote, read + [Unescape(s[pos + 1])]);
        }
      } else if s[pos] != quote {
        StringFails(env, s, pos + 1, quote, read + [s[pos]]);
      }
    }
  }

  lemma {:induction false} TripleFails(env: Numerals, s: string, pos: nat, quotes: string, read: string)
    requires |quotes| == 3
    ensures var r := TripleRest(env, s, pos, quotes, read); r.Err? ==> r.error == Results.ValueError
    decreases |s| - pos
  {
    hide Slice, ConvertValue;
    if pos < |s| {
      TripleFails(env, s, pos + 1, quotes, read + [s[pos]]);
    }
  }

  lemma {:induction false} ValueFails(env: Numerals, s: string, pos: nat)
    ensures var r := Value(env, s, pos); r.Err? ==> r.error == Results.ValueError
    decreases |s| - pos, 1
  {
    hide Skip, Members, Elements, StringRest, TripleRest, Lower, Slice, NumberEnd, NumberOf;
    var p := Skip(s, pos);
    if p >= |s| {
    } else if s[p] == '{' {
      MembersFail(env, s, Skip(s, p + 1), []);
    } else if s[p] == '[' {
      ElementsFail(env, s, Skip(s, p + 1), []);
    } else if TripleAt(s, p) {
      TripleFails(env, s, p + 3, Slice(s, p, p + 3), "");
    } else if IsQuote(s[p]) {
      StringFails(env, s, p + 1, s[p], "");
    } else {
      BareFails(env, s, p);
    }
  }

  lemma BareFails(env: Numerals, s: string, p: nat)
    requires p < |s|
    ensures var r := Bare(env, s, p); r.Err? ==> r.error == Results.ValueError
  {
    hide Lower, Slice, NumberOf;
  }

  /** A key is only looked for where there is text. */
  lemma KeyFails(env: Numerals, s: string, pos: nat)
    requires pos < |s| && !IsBlank(s[pos])
    ensures var r := Key(env, s, pos); r.Err? ==> r.error == Results.ValueError
  {
    NoBlanks(s, pos);
    hide Skip, StringRest;
    if IsQuote(s[pos]) {
      StringFails(env, s, pos + 1, s[pos], "");
    }
  }

  lemma MemberErr(env: Numerals, s: string, pos: nat)
    requires Member(env, s, pos).NoEntry? && Member(env, s, pos).error != Results.ValueError
    ensures var key := Key(env, s, pos);
            if key.Err? then Member(env, s, pos).error == key.error
            else Value(env, s, Skip(s, Skip(s, key.pos) + 1)) == Err(Member(env, s, pos).error)
  {
    hide Key, Skip, Value;
  }

  lemma {:induction false} MemberFails(env: Numerals, s: string, pos: nat)
    requires pos < |s| && !IsBlank(s[pos])
    ensures var r := Member(env, s, pos); r.NoEntry? ==> r.error == Results.ValueError
    decreases |s| - pos, 2
  {
    hide *;
    var r := Member(env, s, pos);
    if r.NoEntry? && r.error != Results.ValueError {
      MemberErr(env, s, pos);
      KeyFails(env, s, pos);
      ValueFails(env, s, Skip(s, Skip(s, Key(env, s, pos).pos) + 1));
    }
  }

  /** How the rest of an object can fail. */
  lemma MembersErr(env: Numerals, s: string, pos: nat, read: seq<(Json, Json)>)
    requires Members(env, s, pos, read).Err? && Members(env, s, pos, read).error != Results.ValueError
    ensures pos < |s|
    ensures var e := Member(env, s, pos);
            if e.NoEntry? then Members(env, s, pos, read).error == e.error
            else Members(env, s, pos, read) == Members(env, s, Skip(s, Skip(s, e.pos) + 1), Put(read, e.key, e.value))
  {
    hide Member, Skip, Put;
  }

  lemma {:induction false} MembersFail(env: Numerals, s: string, pos: nat, read: seq<(Json, Json)>)
    requires pos < |s| ==> !IsBlank(s[pos])
    ensures var r := Members(env, s, pos, read); r.Err? ==> r.error == Results.ValueError
    decreases |s| - pos, 3
  {
    hide *;
    var r := Members(env, s, pos, read);
    if r.Err? && r.error != Results.ValueError {
      MembersErr(env, s, pos, read);
      MemberFails(env, s, pos);
      var e := Member(env, s, pos);
      MembersFail(env, s, Skip(s, Skip(s, e.pos) + 1), Put(read, e.key, e.value));
    }
  }

  lemma ElementsErr(env: Numerals, s: string, pos: nat, read: seq<Json>)
    requires Elements(env, s, pos, read).Err? && Elements(env, s, pos, read).error != Results.ValueError
    ensures pos < |s|
    ensures var v := Value(env, s, pos);
            if v.Err? then Elements(env, s, pos, read) == v
            else Elements(env, s, pos, read) == Elements(env, s, Skip(s, Skip(s, v.pos) + 1), read + [v.value])
  {
    hide Value, Skip;
  }

  lemma {:induction false} ElementsFail(env: Numerals, s: string, pos: nat, read: seq<Json>)
    ensures var r := Elements(env, s, pos, read); r.Err? ==> r.error == Results.ValueError
    decreases |s| - pos, 2
  {
    hide *;
    var r := Elements(env, s, pos, read);
    if r.Err? && r.error != Results.ValueError {
      ElementsErr(env, s, pos, read);
      ValueFails(env, s, pos);
      var v := Value(env, s, pos);
      ElementsFail(env, s, Skip(s, Skip(s, v.pos) + 1), read + [v.value]);
    }
  }

  /** Every failure is a value error, although a key is read without a check
      for the end of the text. */
  lemma ExtractFails(env: Numerals, text: string)
    ensures var r := Extract(env, text); r.Failed? ==> r.error == Results.ValueError
  {
    hide Value, IndexOf, AfterLast, Strip, Slice, Skip;
    var start := IndexOf(text, '{', 0);
    if start.Some? {
      ValueFails(env, Strip(Slice(text, start.value, AfterLast(text, '}'))), 0);
    }
  }
}
