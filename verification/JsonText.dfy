/** Texts with their structure: what a writer may write, how it is spelled and
    what it says, independently of how it is read. */
module JsonText {
  import opened Options
  import opened PyStrings
  import opened JsonSpec

  /** A character of a string: itself, or a letter behind a backslash. */
  datatype Piece = Plain(c: char) | Escaped(letter: char, c: char)

  datatype Literal = Literal(quote: char, pieces: seq<Piece>)

  /** What stands behind an entry: blanks, perhaps with a comma between them. */
  datatype Gap = Comma(before: string, after: string) | NoComma(before: string)

  /** A value as it is written; `blanks` stand behind an opening bracket. */
  datatype Tree =
    | Word(text: string, value: Json)
    | Numeral(text: string, value: Json)
    | Quoted(literal: Literal)
    | Triple(quote: char, text: string)
    | Array(blanks: string, items: Items)
    | Object(blanks: string, fields: Fields)

  datatype Items = NoItems | Item(value: Tree, gap: Gap, rest: Items)

  datatype Fields = NoFields | Field(field: KeyAndValue, gap: Gap, rest: Fields)

  datatype KeyAndValue = KeyAndValue(key: Literal, beforeColon: string, afterColon: string, value: Tree)

  // ----- what may be written -----

  ghost predicate AllBlank(s: string) {
    forall i :: 0 <= i < |s| ==> s[i] in " \t\n\r"
  }

  /** A word in any letter case, given in lower and in upper case. */
  predicate Spells(text: string, lower: string, upper: string)
    requires |lower| == |upper|
  {
    |text| == |lower| && forall i :: 0 <= i < |text| ==> text[i] == lower[i] || text[i] == upper[i]
  }

  predicate IsWord(text: string, v: Json) {
    || (Spells(text, "true", "TRUE") && v == JBool(true))
    || (Spells(text, "false", "FALSE") && v == JBool(false))
    || (Spells(text, "null", "NULL") && v == JNull)
  }

  /** The host language's number for a text: a float if there is a point or an
      exponent, else an integer. */
  predicate IsNumber(env: Numerals, text: string, v: Json) {
    if '.' in text || 'e' in text || 'E' in text then v.JFloat? && env.toFloat(text) == Some(v.x)
    else v.JInt? && env.toInt(text) == Some(v.n)
  }

  ghost predicate IsNumeral(env: Numerals, text: string, v: Json) {
    && text != "" && text[0] in "-+0123456789."
    && (forall i :: 0 <= i < |text| ==> text[i] in "-+0123456789.eE")
    && IsNumber(env, text, v)
  }

  /** Which character a letter behind a backslash stands for. */
  predicate Means(letter: char, c: char) {
    if letter == 'n' then c == '\n'
    else if letter == 't' then c == '\t'
    else if letter == 'r' then c == '\r'
    else c == letter
  }

  predicate IsPiece(p: Piece, quote: char) {
    match p
    case Plain(c) => c != '\\' && c != quote
    case Escaped(letter, c) => Means(letter, c)
  }

  ghost predicate IsLiteral(l: Literal) {
    && (l.quote == '"' || l.quote == '\'')
    && forall i :: 0 <= i < |l.pieces| ==> IsPiece(l.pieces[i], l.quote)
  }

  /** The text between triple quotes ends where the three quotes first stand. */
  ghost predicate IsTriple(quote: char, text: string) {
    && (quote == '"' || quote == '\'')
    && forall i :: 0 <= i < |text| ==> !At(text + [quote, quote, quote], i, [quote, quote, quote])
  }

  ghost predicate IsGap(g: Gap) {
    AllBlank(g.before) && (g.Comma? ==> AllBlank(g.after))
  }

  ghost predicate IsTree(env: Numerals, t: Tree) {
    match t
    case Word(text, v) => IsWord(text, v)
    case Numeral(text, v) => IsNumeral(env, text, v)
    case Quoted(l) => IsLiteral(l)
    case Triple(quote, text) => IsTriple(quote, text)
    case Array(blanks, items) => AllBlank(blanks) && AreItems(env, items)
    case Object(blanks, fields) => AllBlank(blanks) && AreFields(env, fields)
  }

  /** Only the last item may be without a comma. */
  ghost predicate AreItems(env: Numerals, items: Items) {
    items.Item? ==>
      && IsTree(env, items.value) && IsGap(items.gap) && AreItems(env, items.rest)
      && (items.rest.Item? ==> items.gap.Comma?)
  }

  ghost predicate AreFields(env: Numerals, fields: Fields) {
    fields.Field? ==>
      && IsField(env, fields.field) && IsGap(fields.gap) && AreFields(env, fields.rest)
      && (fields.rest.Field? ==> fields.gap.Comma?)
  }

  ghost predicate IsField(env: Numerals, f: KeyAndValue) {
    IsLiteral(f.key) && AllBlank(f.beforeColon) && AllBlank(f.afterColon) && IsTree(env, f.value)
  }

  // ----- how it is spelled -----

  function PieceText(p: Piece): string {
    if p.Plain? then [p.c] else ['\\', p.letter]
  }

  function PiecesText(pieces: seq<Piece>): string {
    if pieces == [] then "" else PieceText(pieces[0]) + PiecesText(pieces[1..])
  }

  function LiteralText(l: Literal): string {
    [l.quote] + (PiecesText(l.pieces) + [l.quote])
  }

  function GapText(g: Gap): string {
    match g
    case Comma(before, after) => before + ("," + after)
    case NoComma(before) => before
  }

  function Text(t: Tree): string {
    match t
    case Word(text, _) => text
    case Numeral(text, _) => text
    case Quoted(l) => LiteralText(l)
    case Triple(quote, text) => [quote, quote, quote] + (text + [quote, quote, quote])
    case Array(blanks, items) => "[" + (blanks + ItemsText(items))
    case Object(blanks, fields) => "{" + (blanks + FieldsText(fields))
  }

  /** Items, what stands behind them, and the closing bracket. */
  function ItemsText(items: Items): string {
    match items
    case NoItems => "]"
    case Item(value, gap, rest) => Text(value) + (GapText(gap) + ItemsText(rest))
  }

  function FieldsText(fields: Fields): string {
    match fields
    case NoFields => "}"
    case Field(field, gap, rest) => FieldText(field) + (GapText(gap) + FieldsText(rest))
  }

  function FieldText(f: KeyAndValue): string {
    LiteralText(f.key) + (f.beforeColon + (":" + (f.afterColon + Text(f.value))))
  }

  // ----- what it says -----

  function Said(pieces: seq<Piece>): (r: string)
    ensures |r| == |pieces| && forall i :: 0 <= i < |r| ==> r[i] == pieces[i].c
  {
    seq(|pieces|, i requires 0 <= i < |pieces| => pieces[i].c)
  }

  /** The document: strings are strings, and every field is there. */
  function Written(t: Tree): Json {
    match t
    case Word(_, v) => v
    case Numeral(_, v) => v
    case Quoted(l) => JStr(Said(l.pieces))
    case Triple(_, text) => JStr(text)
    case Array(_, items) => JArr(WrittenItems(items))
    case Object(_, fields) => JObj(WrittenFields(fields))
  }

  function WrittenItems(items: Items): seq<Json> {
    match items
    case NoItems => []
    case Item(value, _, rest) => [Written(value)] + WrittenItems(rest)
  }

  function WrittenFields(fields: Fields): seq<(Json, Json)> {
    match fields
    case NoFields => []
    case Field(field, _, rest) => [WrittenField(field)] + WrittenFields(rest)
  }

  function WrittenField(f: KeyAndValue): (Json, Json) {
    (JStr(Said(f.key.pieces)), Written(f.value))
  }

  // ----- what reading makes of a document -----

  /** The document as read: strings that spell a constant or a number become
      one, and equal keys collapse. */
  function Reread(env: Numerals, doc: Json): Json
    decreases doc, 0
  {
    match doc
    case JStr(s) => ConvertValue(env, s)
    case JArr(items) => JArr(RereadItems(env, items))
    case JObj(entries) => JObj(RereadFields(env, [], entries))
    case _ => doc
  }

  function RereadItems(env: Numerals, items: seq<Json>): (r: seq<Json>)
    ensures |r| == |items|
    decreases items, 1
  {
    if items == [] then [] else [Reread(env, items[0])] + RereadItems(env, items[1..])
  }

  function RereadFields(env: Numerals, read: seq<(Json, Json)>, entries: seq<(Json, Json)>): seq<(Json, Json)>
    decreases entries, 1
  {
    if entries == [] then read
    else
      var e := RereadField(env, entries[0]);
      RereadFields(env, Put(read, e.0, e.1), entries[1..])
  }

  function RereadField(env: Numerals, entry: (Json, Json)): (Json, Json)
    decreases entry, 1
  {
    (Reread(env, entry.0), Reread(env, entry.1))
  }
}
