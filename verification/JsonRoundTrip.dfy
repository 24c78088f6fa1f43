/** When reading gives a document back. */
module JsonRoundTrip {
  import opened Options
  import opened PyStrings
  import opened JsonSpec
  import opened JsonText
  import opened JsonReads
  import opened JsonAccepts

  // ----- what strings turn into -----

  ghost predicate SpellsWord(text: string) {
    exists v :: IsWord(text, v)
  }

  ghost predicate SpellsNumber(env: Numerals, text: string) {
    exists v :: IsNumber(env, text, v)
  }

  /** Constants come before numbers, and what is neither stays a string. */
  ghost predicate IsConverted(env: Numerals, text: string, v: Json) {
    if SpellsWord(text) then IsWord(text, v)
    else if SpellsNumber(env, text) then IsNumber(env, text, v)
    else v == JStr(text)
  }

  lemma ConvertedIff(env: Numerals, text: string, v: Json)
    ensures ConvertValue(env, text) == v <==> IsConverted(env, text, v)
  {
    hide Spells, Lower, NumberOf, IsNumber;
    LowerSpelling(text, "true", "TRUE");
    LowerSpelling(text, "false", "FALSE");
    LowerSpelling(text, "null", "NULL");
    assert Spells(text, "true", "TRUE") ==> IsWord(text, JBool(true));
    assert Spells(text, "false", "FALSE") ==> IsWord(text, JBool(false));
    assert Spells(text, "null", "NULL") ==> IsWord(text, JNull);
    forall w ensures NumberOf(env, text) == Some(w) <==> IsNumber(env, text, w) {
      NumberOfIs(env, text, w);
    }
    assert NumberOf(env, text).Some? ==> IsNumber(env, text, NumberOf(env, text).value);
  }

  /** A string that is read as itself. */
  ghost predicate StaysText(env: Numerals, text: string) {
    !SpellsWord(text) && !SpellsNumber(env, text)
  }

  lemma StaysTextIff(env: Numerals, text: string)
    ensures ConvertValue(env, text) == JStr(text) <==> StaysText(env, text)
  {
    ConvertedIff(env, text, JStr(text));
    hide ConvertValue, Spells;
  }

  // ----- keys -----

  function NumberValue(k: Json): Option<real> {
    match k
    case JBool(b) => Some(if b then 1.0 else 0.0)
    case JInt(n) => Some(n as real)
    case JFloat(x) => Some(x)
    case _ => None
  }

  /** The host language's equality of keys: numbers are compared by value,
      whatever their types. */
  predicate SameKey(a: Json, b: Json) {
    if NumberValue(a).Some? && NumberValue(b).Some? then NumberValue(a) == NumberValue(b) else a == b
  }

  lemma KeyFormIff(a: Json, b: Json)
    ensures KeyForm(a) == KeyForm(b) <==> SameKey(a, b)
  {
  }

  /** The value under a key. */
  function Lookup(entries: seq<(Json, Json)>, key: Json): Option<Json> {
    if entries == [] then None
    else if SameKey(entries[0].0, key) then Some(entries[0].1)
    else Lookup(entries[1..], key)
  }

  function Keys(entries: seq<(Json, Json)>): (r: seq<Json>)
    ensures |r| == |entries| && forall i :: 0 <= i < |r| ==> r[i] == entries[i].0
  {
    seq(|entries|, i requires 0 <= i < |entries| => entries[i].0)
  }

  ghost predicate HasKey(entries: seq<(Json, Json)>, key: Json) {
    exists i :: 0 <= i < |entries| && SameKey(entries[i].0, key)
  }

  lemma HasKeySteps(entries: seq<(Json, Json)>, key: Json)
    requires entries != []
    ensures HasKey(entries, key) <==> SameKey(entries[0].0, key) || HasKey(entries[1..], key)
  {
    hide SameKey;
    if i :| 0 <= i < |entries| && SameKey(entries[i].0, key) {
      if i > 0 {
        assert entries[1..][i - 1] == entries[i];
      }
    }
    if i :| 0 <= i < |entries[1..]| && SameKey(entries[1..][i].0, key) {
      assert entries[1..][i] == entries[i + 1];
    }
  }

  /** An assignment sets the value under its key and no other. */
  lemma {:induction false} PutValue(entries: seq<(Json, Json)>, key: Json, value: Json, k: Json)
    ensures Lookup(Put(entries, key, value), k) == if SameKey(key, k) then Some(value) else Lookup(entries, k)
  {
    hide *;
    if entries == [] {
      LookupFirst((key, value), [], k);
      PutNothing(key, value);
    } else {
      var e, rest := entries[0], entries[1..];
      assert entries == [e] + rest;
      PutValue(rest, key, value, k);
      PutFirst(entries, key, value);
      LookupFirst(e, Put(rest, key, value), k);
      LookupFirst(e, rest, k);
      LookupFirst((e.0, value), rest, k);
      SameKeys(e.0, key, k);
    }
  }

  /** An assignment keeps the keys, their spelling and their order; a new key
      comes last. */
  lemma {:induction false} PutKeys(entries: seq<(Json, Json)>, key: Json, value: Json)
    ensures Keys(Put(entries, key, value)) == if HasKey(entries, key) then Keys(entries) else Keys(entries) + [key]
  {
    if entries == [] {
      assert Keys(entries) == [] && Keys(Put(entries, key, value)) == [key];
    } else {
      hide *;
      var e, rest := entries[0], entries[1..];
      assert entries == [e] + rest;
      PutKeys(rest, key, value);
      HasKeySteps(entries, key);
      PutFirst(entries, key, value);
      KeysFirst(e, rest);
      KeysFirst(e, Put(rest, key, value));
      KeysFirst((e.0, value), rest);
      OneBefore(e.0, Keys(rest), key);
    }
  }

  lemma KeysFirst(e: (Json, Json), rest: seq<(Json, Json)>)
    ensures Keys([e] + rest) == [e.0] + Keys(rest)
  {
  }

  lemma OneBefore(a: Json, s: seq<Json>, b: Json)
    ensures [a] + (s + [b]) == [a] + s + [b]
  {
  }

  lemma PutNothing(key: Json, value: Json)
    ensures Put([], key, value) == [(key, value)] + []
  {
  }

  lemma PutFirst(entries: seq<(Json, Json)>, key: Json, value: Json)
    requires entries != []
    ensures Put(entries, key, value)
         == if SameKey(entries[0].0, key) then [(entries[0].0, value)] + entries[1..]
            else [entries[0]] + Put(entries[1..], key, value)
  {
    KeyFormIff(entries[0].0, key);
  }

  lemma LookupFirst(e: (Json, Json), rest: seq<(Json, Json)>, k: Json)
    ensures Lookup([e] + rest, k) == if SameKey(e.0, k) then Some(e.1) else Lookup(rest, k)
  {
    assert ([e] + rest)[1..] == rest;
  }

  /** Equality of keys is an equivalence. */
  lemma SameKeys(a: Json, b: Json, c: Json)
    ensures SameKey(a, b) ==> (SameKey(a, c) <==> SameKey(b, c))
    ensures SameKey(a, c) && SameKey(b, c) ==> SameKey(a, b)
  {
  }

  /** The value of the last field with a key, as read. */
  function LastValue(env: Numerals, entries: seq<(Json, Json)>, k: Json): Option<Json> {
    if entries == [] then None
    else
      var later := LastValue(env, entries[1..], k);
      if later.None? && SameKey(Reread(env, entries[0].0), k) then Some(Reread(env, entries[0].1)) else later
  }

  /** Of the fields with one key the last gives the value. */
  lemma {:induction false} LastFieldWins(env: Numerals, read: seq<(Json, Json)>, entries: seq<(Json, Json)>, k: Json)
    ensures Lookup(RereadFields(env, read, entries), k)
         == if LastValue(env, entries, k).Some? then LastValue(env, entries, k) else Lookup(read, k)
    decreases |entries|
  {
    if entries != [] {
      var e := RereadField(env, entries[0]);
      FieldsFrom(env, read, entries);
      LastFieldWins(env, Put(read, e.0, e.1), entries[1..], k);
      PutValue(read, e.0, e.1, k);
      hide Put, Lookup, SameKey, Reread, RereadFields;
    }
  }

  lemma FieldsFrom(env: Numerals, read: seq<(Json, Json)>, entries: seq<(Json, Json)>)
    requires entries != []
    ensures var e := RereadField(env, entries[0]);
            RereadFields(env, read, entries) == RereadFields(env, Put(read, e.0, e.1), entries[1..])
  {
    hide RereadField, Put;
  }

  // ----- when reading changes nothing -----

  ghost predicate DistinctKeys(entries: seq<(Json, Json)>) {
    forall i, j :: 0 <= i < j < |entries| ==> !SameKey(entries[i].0, entries[j].0)
  }

  /** No string or key spells a constant or a number, and the keys of each
      object are distinct. */
  ghost predicate Clean(env: Numerals, doc: Json) {
    match doc
    case JStr(s) => StaysText(env, s)
    case JArr(items) => forall i :: 0 <= i < |items| ==> Clean(env, items[i])
    case JObj(entries) =>
      && (forall i :: 0 <= i < |entries| ==> Clean(env, entries[i].0) && Clean(env, entries[i].1))
      && DistinctKeys(entries)
    case _ => true
  }

  /** The fields reread one by one, without collapsing equal keys. */
  function RereadEach(env: Numerals, entries: seq<(Json, Json)>): (r: seq<(Json, Json)>)
    ensures |r| == |entries| && forall i :: 0 <= i < |r| ==> r[i] == RereadField(env, entries[i])
  {
    seq(|entries|, i requires 0 <= i < |entries| => RereadField(env, entries[i]))
  }

  lemma {:induction false} PutFresh(entries: seq<(Json, Json)>, key: Json, value: Json)
    requires !HasKey(entries, key)
    ensures Put(entries, key, value) == entries + [(key, value)]
  {
    if entries != [] {
      hide *;
      HasKeySteps(entries, key);
      PutFirst(entries, key, value);
      PutFresh(entries[1..], key, value);
      assert entries == [entries[0]] + entries[1..];
    }
  }

  /** Rereading keeps every field exactly when no two keys collide. */
  lemma {:induction false} RereadKeepsAll(env: Numerals, read: seq<(Json, Json)>, entries: seq<(Json, Json)>)
    requires DistinctKeys(read)
    ensures |RereadFields(env, read, entries)| <= |read| + |entries|
    ensures |RereadFields(env, read, entries)| == |read| + |entries| <==> DistinctKeys(read + RereadEach(env, entries))
    ensures DistinctKeys(read + RereadEach(env, entries)) ==> RereadFields(env, read, entries) == read + RereadEach(env, entries)
    decreases |entries|
  {
    if entries == [] {
      assert read + RereadEach(env, entries) == read;
    } else {
      var e := RereadField(env, entries[0]);
      hide RereadField, Put, SameKey, HasKey, DistinctKeys;
      if !HasKey(read, e.0) {
        RereadExtends(env, read, entries);
        RereadKeepsAll(env, read + [e], entries[1..]);
      } else {
        RereadCollides(env, read, entries);
      }
    }
  }

  lemma RereadExtends(env: Numerals, read: seq<(Json, Json)>, entries: seq<(Json, Json)>)
    requires entries != [] && DistinctKeys(read) && !HasKey(read, RereadField(env, entries[0]).0)
    ensures var more := read + [RereadField(env, entries[0])];
            && DistinctKeys(more)
            && RereadFields(env, read, entries) == RereadFields(env, more, entries[1..])
            && more + RereadEach(env, entries[1..]) == read + RereadEach(env, entries)
  {
    hide RereadField, Put;
    var e := RereadField(env, entries[0]);
    PutFresh(read, e.0, e.1);
    assert RereadEach(env, entries) == [e] + RereadEach(env, entries[1..]);
    MoveBorder(read, e, RereadEach(env, entries[1..]));
    FieldsFrom(env, read, entries);
  }

  lemma MoveBorder(a: seq<(Json, Json)>, e: (Json, Json), b: seq<(Json, Json)>)
    ensures a + [e] + b == a + ([e] + b)
  {
  }

  lemma RereadCollides(env: Numerals, read: seq<(Json, Json)>, entries: seq<(Json, Json)>)
    requires entries != [] && HasKey(read, RereadField(env, entries[0]).0)
    ensures |RereadFields(env, read, entries)| < |read| + |entries|
    ensures !DistinctKeys(read + RereadEach(env, entries))
  {
    hide RereadField, Put, SameKey;
    var e := RereadField(env, entries[0]);
    var all := read + RereadEach(env, entries);
    PutKeys(read, e.0, e.1);
    FieldsFrom(env, read, entries);
    RereadShort(env, Put(read, e.0, e.1), entries[1..]);
    var i :| 0 <= i < |read| && SameKey(read[i].0, e.0);
    assert all[i] == read[i] && all[|read|] == e;
  }

  lemma {:induction false} RereadShort(env: Numerals, read: seq<(Json, Json)>, entries: seq<(Json, Json)>)
    ensures |RereadFields(env, read, entries)| <= |read| + |entries|
    decreases |entries|
  {
    if entries != [] {
      var e := RereadField(env, entries[0]);
      RereadShort(env, Put(read, e.0, e.1), entries[1..]);
    }
  }

  lemma {:induction false} ItemsReread(env: Numerals, items: seq<Json>)
    ensures RereadItems(env, items) == items <==> forall i :: 0 <= i < |items| ==> Clean(env, items[i])
    decreases items, 1
  {
    if items != [] {
      var rest := items[1..];
      RereadIsSameIff(env, items[0]);
      ItemsReread(env, rest);
      hide Clean, Reread;
      var r := RereadItems(env, items);
      assert r == [Reread(env, items[0])] + RereadItems(env, rest);
      assert items == [items[0]] + rest;
      assert r[1..] == RereadItems(env, rest);
      if forall i :: 0 <= i < |rest| ==> Clean(env, rest[i]) {
        assert forall i :: 0 <= i < |items| ==> i == 0 || items[i] == rest[i - 1];
      }
      assert forall i :: 0 <= i < |rest| ==> rest[i] == items[i + 1];
    }
  }

  lemma {:induction false} FieldsReread(env: Numerals, entries: seq<(Json, Json)>)
    ensures RereadEach(env, entries) == entries
       <==> forall i :: 0 <= i < |entries| ==> Clean(env, entries[i].0) && Clean(env, entries[i].1)
    decreases entries, 1
  {
    forall i | 0 <= i < |entries|
      ensures RereadEach(env, entries)[i] == entries[i] <==> Clean(env, entries[i].0) && Clean(env, entries[i].1)
    {
      FieldReread(env, entries[i]);
    }
  }

  lemma FieldReread(env: Numerals, e: (Json, Json))
    ensures RereadField(env, e) == e <==> Clean(env, e.0) && Clean(env, e.1)
    decreases e, 1
  {
    RereadIsSameIff(env, e.0);
    RereadIsSameIff(env, e.1);
    hide Clean, Reread;
  }

  lemma ObjectReread(env: Numerals, entries: seq<(Json, Json)>)
    ensures RereadFields(env, [], entries) == entries <==> RereadEach(env, entries) == entries && DistinctKeys(entries)
  {
    hide RereadFields, RereadEach, SameKey;
    RereadKeepsAll(env, [], entries);
    assert [] + RereadEach(env, entries) == RereadEach(env, entries);
  }

  /** A document rereads as itself exactly when it is clean. */
  lemma {:induction false} RereadIsSameIff(env: Numerals, doc: Json)
    ensures Reread(env, doc) == doc <==> Clean(env, doc)
    decreases doc, 0
  {
    match doc
    case JStr(s) => StaysTextIff(env, s);
    case JArr(items) => ItemsReread(env, items);
    case JObj(entries) =>
      FieldsReread(env, entries);
      ObjectReread(env, entries);
    case _ =>
  }

  /** The round trip: an object, however it is written and whatever text is
      around it, is read back as that object exactly when no string or key
      spells something else and no object repeats a key. */
  lemma RoundTrip(env: Numerals, t: Tree, lead: string, trail: string)
    requires IsTree(env, t) && t.Object? && '{' !in lead && '}' !in trail
    ensures Extract(env, lead + Text(t) + trail) == Found(Written(t)) <==> Clean(env, Written(t))
  {
    ObjectIsExtracted(env, t, lead, trail);
    RereadIsSameIff(env, Written(t));
  }
}
