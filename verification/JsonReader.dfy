/** A reader of the JSON the row printer writes: strings, null, arrays and objects, without white space between tokens. */
module JsonReader {
  import opened Wrappers
  import Bytes
  import opened JsonRows

  datatype Json =
    | Null
    | Text(text: string)
    | Arr(items: seq<Json>)
    | Obj(members: seq<Member>)

  datatype Member = Member(key: string, value: Json)

  // ---- reading ----

  /** The character a short escape stands for, by section 7 of RFC 8259. */
  function ShortEscape(c: char): Option<char> {
    if c == '"' then Some('"')
    else if c == '\\' then Some('\\')
    else if c == '/' then Some('/')
    else if c == 'b' then Some(8 as char)
    else if c == 'f' then Some(12 as char)
    else if c == 'n' then Some('\n')
    else if c == 'r' then Some('\r')
    else if c == 't' then Some('\t')
    else None
  }

  /** Four hex digits as a character outside the surrogates. */
  function LongEscape(s: string): Option<char>
    requires |s| == 4
  {
    match (Bytes.DigitValue(s[0]), Bytes.DigitValue(s[1]), Bytes.DigitValue(s[2]), Bytes.DigitValue(s[3]))
    case (Some(a), Some(b), Some(c), Some(d)) =>
      var n := 4096 * a + 256 * b + 16 * c + d;
      if 0xD800 <= n <= 0xDFFF then None else Some(n as char)
    case _ => None
  }

  /** The first character of a string literal's inside, and what follows it. */
  function ReadChar(t: string): (r: Option<(char, string)>)
    ensures r.Some? ==> |r.value.1| < |t|
  {
    if t == [] || t[0] == '"' || (t[0] as int) < 0x20 then None
    else if t[0] != '\\' then Some((t[0], t[1..]))
    else if |t| < 2 then None
    else if t[1] == 'u' then
      if |t| < 6 then None
      else match LongEscape(t[2..6]) case None => None case Some(c) => Some((c, t[6..]))
    else match ShortEscape(t[1]) case None => None case Some(c) => Some((c, t[2..]))
  }

  /** The inside of a string literal up to its closing quote, and what follows the quote. */
  function ReadInside(t: string): (r: Option<(string, string)>)
    ensures r.Some? ==> |r.value.1| < |t|
    decreases |t|
  {
    if t != [] && t[0] == '"' then Some(("", t[1..]))
    else
      match ReadChar(t)
      case None => None
      case Some((c, rest)) =>
        match ReadInside(rest) case None => None case Some((s, after)) => Some(([c] + s, after))
  }

  function ReadString(t: string): (r: Option<(string, string)>)
    ensures r.Some? ==> |r.value.1| < |t|
  {
    if t == [] || t[0] != '"' then None else ReadInside(t[1..])
  }

  function ReadValue(t: string): (r: Option<(Json, string)>)
    ensures r.Some? ==> |r.value.1| < |t|
    decreases |t|, 0
  {
    if t == [] then None
    else if t[0] == '"' then
      (match ReadString(t) case None => None case Some((s, rest)) => Some((Text(s), rest)))
    else if t[0] == '[' then
      if |t| > 1 && t[1] == ']' then Some((Arr([]), t[2..]))
      else (match ReadItems(t[1..]) case None => None case Some((items, rest)) => Some((Arr(items), rest)))
    else if t[0] == '{' then
      if |t| > 1 && t[1] == '}' then Some((Obj([]), t[2..]))
      else (match ReadMembers(t[1..]) case None => None case Some((members, rest)) => Some((Obj(members), rest)))
    else if "null" <= t then Some((Null, t[4..]))
    else None
  }

  /** One or more values between commas, up to the closing bracket. */
  function ReadItems(t: string): (r: Option<(seq<Json>, string)>)
    ensures r.Some? ==> |r.value.1| < |t|
    decreases |t|, 1
  {
    match ReadValue(t)
    case None => None
    case Some((first, rest)) =>
      if rest != [] && rest[0] == ']' then Some(([first], rest[1..]))
      else if rest != [] && rest[0] == ',' then
        match ReadItems(rest[1..]) case None => None case Some((more, after)) => Some(([first] + more, after))
      else None
  }

  function ReadMembers(t: string): (r: Option<(seq<Member>, string)>)
    ensures r.Some? ==> |r.value.1| < |t|
    decreases |t|, 1
  {
    match ReadString(t)
    case None => None
    case Some((key, afterKey)) =>
      if afterKey == [] || afterKey[0] != ':' then None
      else
        match ReadValue(afterKey[1..])
        case None => None
        case Some((value, rest)) =>
          if rest != [] && rest[0] == '}' then Some(([Member(key, value)], rest[1..]))
          else if rest != [] && rest[0] == ',' then
            match ReadMembers(rest[1..]) case None => None case Some((more, after)) => Some(([Member(key, value)] + more, after))
          else None
  }

  /** A whole document. */
  function ReadDocument(t: string): Option<Json> {
    match ReadValue(t) case None => None case Some((j, rest)) => if rest == [] then Some(j) else None
  }

  // ---- strings are read back ----

  lemma ShortRoundTrip(c: char, rest: string)
    requires c == '"' || c == '\\' || c == '\n' || c == '\r' || c == '\t'
    ensures ReadChar(EscapeChar(c) + rest) == Some((c, rest))
  {
    var t := EscapeChar(c) + rest;
    assert t[2..] == rest && t[0] == '\\' && t[1] == EscapeChar(c)[1];
  }

  lemma LongRoundTrip(c: char, rest: string)
    requires (c as int) < 0x20 && c != '\n' && c != '\r' && c != '\t'
    ensures ReadChar(EscapeChar(c) + rest) == Some((c, rest))
  {
    var e := EscapeChar(c);
    var t := e + rest;
    assert |e| == 6 && t[6..] == rest && t[2..6] == e[2..6];
    assert t[0] == '\\' && t[1] == 'u';
    var n := c as int;
    assert e[2..6] == ['0', '0', Bytes.HexDigit(n / 16), Bytes.HexDigit(n % 16)];
    assert LongEscape(e[2..6]) == Some(c);
  }

  lemma CharRoundTrip(c: char, rest: string)
    ensures ReadChar(EscapeChar(c) + rest) == Some((c, rest))
    ensures (EscapeChar(c) + rest)[0] != '"'
  {
    EscapeShape(c);
    assert (EscapeChar(c) + rest)[0] == EscapeChar(c)[0];
    if c == '"' || c == '\\' || c == '\n' || c == '\r' || c == '\t' {
      ShortRoundTrip(c, rest);
    } else if (c as int) < 0x20 {
      LongRoundTrip(c, rest);
    } else {
      assert ([c] + rest)[1..] == rest;
    }
  }

  lemma {:induction false} InsideRoundTrip(s: string, rest: string)
    ensures ReadInside(Escape(s) + ("\"" + rest)) == Some((s, rest))
  {
    if s == [] {
      assert Escape(s) + ("\"" + rest) == "\"" + rest;
      assert ("\"" + rest)[1..] == rest;
    } else {
      var more := Escape(s[1..]) + ("\"" + rest);
      Associate(EscapeChar(s[0]), Escape(s[1..]), "\"" + rest);
      CharRoundTrip(s[0], more);
      InsideRoundTrip(s[1..], rest);
      assert [s[0]] + s[1..] == s;
    }
  }

  lemma StringRoundTrip(s: string, rest: string)
    ensures ReadString(Quoted(s) + rest) == Some((s, rest))
    ensures |Quoted(s) + rest| > 0 && (Quoted(s) + rest)[0] == '"'
  {
    var t := Quoted(s) + rest;
    Regroup("\"", Escape(s), "\"", rest);
    Behind("\"", Escape(s) + ("\"" + rest));
    InsideRoundTrip(s, rest);
  }

  lemma Behind(a: string, rest: string)
    requires |a| == 1
    ensures |a + rest| > 0 && (a + rest)[0] == a[0] && (a + rest)[1..] == rest
  {
  }

  // ---- what the printer writes, as a value ----

  function LabelValue(value: Option<string>): Json {
    if value.Some? then Text(value.value) else Null
  }

  /** Each column under its own name, as far as the row has values. */
  function Labels(columns: seq<string>, values: seq<Option<string>>): seq<Member> {
    if columns == [] || values == [] then []
    else [Member(columns[0], LabelValue(values[0]))] + Labels(columns[1..], values[1..])
  }

  function RowValue(row: Row, columns: seq<string>): Json {
    Obj([Member("kind", Text(row.kind)), Member("name", Text(row.name)), Member("labels", Obj(Labels(columns, row.columns)))])
  }

  function RowValues(rows: seq<Row>, columns: seq<string>): seq<Json> {
    if rows == [] then [] else [RowValue(rows[0], columns)] + RowValues(rows[1..], columns)
  }

  lemma LabelRoundTrip(value: Option<string>, rest: string)
    ensures ReadValue(Rendered(value) + rest) == Some((LabelValue(value), rest))
  {
    if value.Some? {
      StringRoundTrip(value.value, rest);
    } else {
      var t := "null" + rest;
      assert t[..4] == "null" && t[4..] == rest && t[0] == 'n';
    }
  }

  /** One member of the labels: its key, its value, and the text that follows. */
  lemma PairReads(column: string, value: Option<string>, rest: string)
    ensures var t := Pair(column, value) + rest;
            && ReadString(t).Some? && ReadString(t).value.0 == column
            && var after := ReadString(t).value.1;
               && after != [] && after[0] == ':' && ReadValue(after[1..]) == Some((LabelValue(value), rest))
  {
    Regroup(Quoted(column), ":", Rendered(value), rest);
    StringRoundTrip(column, ":" + (Rendered(value) + rest));
    Behind(":", Rendered(value) + rest);
    LabelRoundTrip(value, rest);
  }

  lemma PairsCons(columns: seq<string>, values: seq<Option<string>>)
    requires columns != [] && values != []
    ensures Pairs(columns, values) == [Pair(columns[0], values[0])] + Pairs(columns[1..], values[1..])
    ensures Labels(columns, values) == [Member(columns[0], LabelValue(values[0]))] + Labels(columns[1..], values[1..])
    ensures Pairs(columns[1..], values[1..]) == [] <==> columns[1..] == [] || values[1..] == []
  {
  }

  lemma {:induction false} LabelsRead(columns: seq<string>, values: seq<Option<string>>, rest: string)
    requires columns != [] && values != []
    ensures ReadMembers(Join(Pairs(columns, values)) + ("}" + rest)) == Some((Labels(columns, values), rest))
    decreases |columns|
  {
    var column, value, more := columns[0], values[0], Pairs(columns[1..], values[1..]);
    PairsCons(columns, values);
    JoinStep(Pair(column, value), more, "}" + rest);
    var t, tail := Join(Pairs(columns, values)) + ("}" + rest), Tail(more, "}" + rest);
    PairReads(column, value, tail);
    if more == [] {
      LastMember(t, column, LabelValue(value), rest);
      assert Labels(columns, values) == [Member(column, LabelValue(value))];
    } else {
      LabelsRead(columns[1..], values[1..], rest);
      NextMember(t, column, LabelValue(value), Join(more) + ("}" + rest), Labels(columns[1..], values[1..]), rest);
    }
  }

  /** The labels object, with or without labels. */
  lemma LabelObjectReads(columns: seq<string>, values: seq<Option<string>>, rest: string)
    ensures ReadValue("{" + (Join(Pairs(columns, values)) + ("}" + rest))) == Some((Obj(Labels(columns, values)), rest))
  {
    var inside := Join(Pairs(columns, values)) + ("}" + rest);
    Behind("{", inside);
    FirstOfPairs(columns, values, "}" + rest);
    if columns == [] || values == [] {
      Behind("}", rest);
      var t := "{" + inside;
      assert t[1] == '}' && t[2..] == rest;
    } else {
      var t := "{" + inside;
      assert t[1] == inside[0];
      LabelsRead(columns, values, rest);
    }
  }

  /** A member whose key and value are read, followed by another member or by the end of the object. */
  lemma MemberReads(key: string, value: Json, valueText: string, rest: string)
    requires ReadValue(valueText + rest) == Some((value, rest))
    ensures var t := Quoted(key) + (":" + (valueText + rest));
            && ReadString(t).Some? && ReadString(t).value.0 == key
            && var after := ReadString(t).value.1;
               after != [] && after[0] == ':' && ReadValue(after[1..]) == Some((value, rest))
  {
    StringRoundTrip(key, ":" + (valueText + rest));
    Behind(":", valueText + rest);
  }

  lemma LastMember(t: string, key: string, value: Json, rest: string)
    requires ReadString(t).Some? && ReadString(t).value.0 == key
    requires var after := ReadString(t).value.1;
             after != [] && after[0] == ':' && ReadValue(after[1..]) == Some((value, "}" + rest))
    ensures ReadMembers(t) == Some(([Member(key, value)], rest))
  {
    Behind("}", rest);
  }

  lemma NextMember(t: string, key: string, value: Json, next: string, more: seq<Member>, rest: string)
    requires ReadString(t).Some? && ReadString(t).value.0 == key
    requires var after := ReadString(t).value.1;
             after != [] && after[0] == ':' && ReadValue(after[1..]) == Some((value, "," + next))
    requires ReadMembers(next) == Some((more, rest))
    ensures ReadMembers(t) == Some(([Member(key, value)] + more, rest))
  {
    Behind(",", next);
  }

  lemma TextReads(s: string, rest: string)
    ensures ReadValue(Quoted(s) + rest) == Some((Text(s), rest))
  {
    StringRoundTrip(s, rest);
  }

  /** An object of three members, each read under its own key. */
  lemma ThreeMembersRead(
    a: string, x: Json, xText: string, b: string, y: Json, yText: string, c: string, z: Json, zText: string, rest: string)
    requires forall after :: ReadValue(xText + after) == Some((x, after))
    requires forall after :: ReadValue(yText + after) == Some((y, after))
    requires ReadValue(zText + ("}" + rest)) == Some((z, "}" + rest))
    ensures var third := Quoted(c) + (":" + (zText + ("}" + rest)));
            var second := Quoted(b) + (":" + (yText + ("," + third)));
            var first := Quoted(a) + (":" + (xText + ("," + second)));
            ReadMembers(first) == Some(([Member(a, x)] + ([Member(b, y)] + [Member(c, z)]), rest))
  {
    var third := Quoted(c) + (":" + (zText + ("}" + rest)));
    var second := Quoted(b) + (":" + (yText + ("," + third)));
    var first := Quoted(a) + (":" + (xText + ("," + second)));
    MemberReads(c, z, zText, "}" + rest);
    LastMember(third, c, z, rest);
    MemberReads(b, y, yText, "," + third);
    NextMember(second, b, y, third, [Member(c, z)], rest);
    MemberReads(a, x, xText, "," + second);
    NextMember(first, a, x, second, [Member(b, y)] + [Member(c, z)], rest);
  }

  lemma {:induction false} PlainEscapes(s: string)
    requires forall i :: 0 <= i < |s| ==> 'a' <= s[i] <= 'z'
    ensures Escape(s) == s
  {
    if s != [] {
      PlainEscapes(s[1..]);
      assert [s[0]] + s[1..] == s;
    }
  }

  lemma PlainQuoted(s: string)
    requires forall i :: 0 <= i < |s| ==> 'a' <= s[i] <= 'z'
    ensures Quoted(s) == "\"" + (s + "\"")
  {
    PlainEscapes(s);
  }

  /** The printer's literals are the quoted keys with their punctuation. */
  lemma KeysAsPrinted(kind: string, name: string, labels: string)
    requires kind == "kind" && name == "name" && labels == "labels"
    ensures "{\"kind\":" == "{" + (Quoted(kind) + ":")
    ensures ",\"name\":" == "," + (Quoted(name) + ":")
    ensures ",\"labels\":{" == "," + (Quoted(labels) + (":" + "{"))
  {
    PlainQuoted(kind);
    PlainQuoted(name);
    PlainQuoted(labels);
  }

  lemma ItemsAsPrinted(items: string)
    requires items == "items"
    ensures "{\"items\":[" == "{" + (Quoted(items) + (":" + "["))
  {
    PlainQuoted(items);
  }

  lemma Shape(q1: string, k: string, q2: string, n: string, q3: string, p: string, tail: string)
    ensures ("{" + (q1 + ":")) + (k + (("," + (q2 + ":")) + (n + (("," + (q3 + (":" + "{"))) + (p + tail))))) ==
            "{" + (q1 + (":" + (k + ("," + (q2 + (":" + (n + ("," + (q3 + (":" + ("{" + (p + tail))))))))))))
  {
  }

  lemma RowReads(row: Row, columns: seq<string>, rest: string)
    ensures ReadValue(RowJson(row, columns) + rest) == Some((RowValue(row, columns), rest))
  {
    var kind, name, labels := "kind", "name", "labels";
    var p := Join(Pairs(columns, row.columns));
    RowNested(row, columns, rest);
    KeysAsPrinted(kind, name, labels);
    RowReadsUnder(row, columns, rest, kind, name, labels, p);
    RowValueIs(row, columns, kind, name, labels);
  }

  lemma RowValueIs(row: Row, columns: seq<string>, kind: string, name: string, labels: string)
    requires kind == "kind" && name == "name" && labels == "labels"
    ensures RowValue(row, columns) ==
            Obj([Member(kind, Text(row.kind))] + ([Member(name, Text(row.name))] + [Member(labels, Obj(Labels(columns, row.columns)))]))
  {
  }

  lemma RowReadsUnder(row: Row, columns: seq<string>, rest: string, kind: string, name: string, labels: string, p: string)
    requires p == Join(Pairs(columns, row.columns))
    ensures ReadValue(("{" + (Quoted(kind) + ":")) + (Quoted(row.kind) + (("," + (Quoted(name) + ":")) + (Quoted(row.name) +
                      (("," + (Quoted(labels) + (":" + "{"))) + (p + ("}" + ("}" + rest)))))))) ==
            Some((Obj([Member(kind, Text(row.kind))] + ([Member(name, Text(row.name))] + [Member(labels, Obj(Labels(columns, row.columns)))])), rest))
  {
    Shape(Quoted(kind), Quoted(row.kind), Quoted(name), Quoted(row.name), Quoted(labels), p, "}" + ("}" + rest));
    var labelText := "{" + (p + "}");
    LabelObjectReads(columns, row.columns, "}" + rest);
    Regroup("{", p, "}", "}" + rest);
    forall after ensures ReadValue(Quoted(row.kind) + after) == Some((Text(row.kind), after)) { TextReads(row.kind, after); }
    forall after ensures ReadValue(Quoted(row.name) + after) == Some((Text(row.name), after)) { TextReads(row.name, after); }
    ThreeMembersRead(kind, Text(row.kind), Quoted(row.kind), name, Text(row.name), Quoted(row.name),
                     labels, Obj(Labels(columns, row.columns)), labelText, rest);
    var third := Quoted(labels) + (":" + (labelText + ("}" + rest)));
    var second := Quoted(name) + (":" + (Quoted(row.name) + ("," + third)));
    var first := Quoted(kind) + (":" + (Quoted(row.kind) + ("," + second)));
    ObjectReads(first, [Member(kind, Text(row.kind))] + ([Member(name, Text(row.name))] + [Member(labels, Obj(Labels(columns, row.columns)))]), rest);
  }

  lemma ObjectReads(inside: string, members: seq<Member>, rest: string)
    requires ReadMembers(inside) == Some((members, rest))
    ensures ReadValue("{" + inside) == Some((Obj(members), rest))
  {
    Behind("{", inside);
    var t := "{" + inside;
    assert |t| > 1 && t[1] == inside[0] == '"';
  }

  lemma ArrayReads(inside: string, items: seq<Json>, rest: string)
    requires ReadItems(inside) == Some((items, rest)) && inside != [] && inside[0] != ']'
    ensures ReadValue("[" + inside) == Some((Arr(items), rest))
  {
    Behind("[", inside);
    var t := "[" + inside;
    assert t[1] == inside[0];
  }

  lemma LastItem(t: string, item: Json, rest: string)
    requires ReadValue(t) == Some((item, "]" + rest))
    ensures ReadItems(t) == Some(([item], rest))
  {
    Behind("]", rest);
  }

  lemma NextItem(t: string, item: Json, next: string, more: seq<Json>, rest: string)
    requires ReadValue(t) == Some((item, "," + next)) && ReadItems(next) == Some((more, rest))
    ensures ReadItems(t) == Some(([item] + more, rest))
  {
    Behind(",", next);
  }

  lemma RowsCons(rows: seq<Row>, columns: seq<string>)
    requires rows != []
    ensures Objects(rows, columns) == [RowJson(rows[0], columns)] + Objects(rows[1..], columns)
    ensures RowValues(rows, columns) == [RowValue(rows[0], columns)] + RowValues(rows[1..], columns)
    ensures Objects(rows[1..], columns) == [] <==> rows[1..] == []
  {
  }

  lemma {:induction false} RowsRead(rows: seq<Row>, columns: seq<string>, rest: string)
    requires rows != []
    ensures ReadItems(Join(Objects(rows, columns)) + ("]" + rest)) == Some((RowValues(rows, columns), rest))
  {
    var first, more := RowJson(rows[0], columns), Objects(rows[1..], columns);
    var t, tail := Join(Objects(rows, columns)) + ("]" + rest), Tail(more, "]" + rest);
    RowsCons(rows, columns);
    JoinStep(first, more, "]" + rest);
    RowReads(rows[0], columns, tail);
    if more == [] {
      LastItem(t, RowValue(rows[0], columns), rest);
      assert RowValues(rows, columns) == [RowValue(rows[0], columns)];
    } else {
      RowsRead(rows[1..], columns, rest);
      NextItem(t, RowValue(rows[0], columns), Join(more) + ("]" + rest), RowValues(rows[1..], columns), rest);
    }
  }

  lemma ListReads(rows: seq<Row>, columns: seq<string>, rest: string)
    ensures ReadValue("[" + (Join(Objects(rows, columns)) + ("]" + rest))) == Some((Arr(RowValues(rows, columns)), rest))
  {
    var inside := Join(Objects(rows, columns)) + ("]" + rest);
    if rows == [] {
      assert inside == "]" + rest;
      var t := "[" + inside;
      assert t[1] == ']' && t[2..] == rest;
    } else {
      RowsRead(rows, columns, rest);
      RowsCons(rows, columns);
      JoinStep(RowJson(rows[0], columns), Objects(rows[1..], columns), "]" + rest);
      assert inside[0] == RowJson(rows[0], columns)[0] == '{';
      ArrayReads(inside, RowValues(rows, columns), rest);
    }
  }

  /** An object of one member. */
  lemma OneMemberReads(key: string, value: Json, valueText: string)
    requires ReadValue(valueText + "}") == Some((value, "}"))
    ensures ReadDocument("{" + (Quoted(key) + (":" + (valueText + "}")))) == Some(Obj([Member(key, value)]))
  {
    var t := Quoted(key) + (":" + (valueText + "}"));
    assert "}" + "" == "}";
    MemberReads(key, value, valueText, "}");
    LastMember(t, key, value, "");
    ObjectReads(t, [Member(key, value)], "");
  }

  lemma DocumentShape(q: string, list: string)
    ensures ("{" + (q + (":" + "["))) + (list + "]}") == "{" + (q + (":" + (("[" + (list + "]")) + "}")))
    ensures ("[" + (list + "]")) + "}" == "[" + (list + ("]" + "}"))
  {
  }

  lemma DocumentReadsUnder(rows: seq<Row>, columns: seq<string>, items: string)
    ensures ReadDocument(("{" + (Quoted(items) + (":" + "["))) + (Join(Objects(rows, columns)) + "]}")) ==
            Some(Obj([Member(items, Arr(RowValues(rows, columns)))]))
  {
    var list := Join(Objects(rows, columns));
    DocumentShape(Quoted(items), list);
    ListReads(rows, columns, "}");
    OneMemberReads(items, Arr(RowValues(rows, columns)), "[" + (list + "]"));
  }

  /** The document of a listing reads back as the list of its rows: kind under "kind", name under "name", and under
      "labels" each column with its value, or with null where the row has none. */
  lemma DocumentReads(rows: seq<Row>, columns: seq<string>)
    ensures ReadDocument(RowsToJson(rows, columns)) == Some(Obj([Member("items", Arr(RowValues(rows, columns)))]))
  {
    var items := "items";
    ItemsAsPrinted(items);
    DocumentReadsUnder(rows, columns, items);
  }
}
