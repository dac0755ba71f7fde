/** The JSON rendering of matched rows, with the string escaping of section 7 of RFC 8259. */
module JsonRows {
  import opened Wrappers
  import Bytes

  datatype Row = Row(kind: string, name: string, columns: seq<Option<string>>)

  /** One character of a string literal. */
  function EscapeChar(c: char): string {
    if c == '"' then "\\\""
    else if c == '\\' then "\\\\"
    else if c == '\n' then "\\n"
    else if c == '\r' then "\\r"
    else if c == '\t' then "\\t"
    else if (c as int) < 0x20 then "\\u00" + [Bytes.HexDigit(c as int / 16), Bytes.HexDigit(c as int % 16)]
    else [c]
  }

  function Escape(s: string): string {
    if s == [] then "" else EscapeChar(s[0]) + Escape(s[1..])
  }

  function Quoted(s: string): string {
    "\"" + (Escape(s) + "\"")
  }

  function Rendered(value: Option<string>): string {
    if value.Some? then Quoted(value.value) else "null"
  }

  function Pair(column: string, value: Option<string>): string {
    Quoted(column) + (":" + Rendered(value))
  }

  /** The pairs of the columns both lists have, as zipping them gives. */
  function Pairs(columns: seq<string>, values: seq<Option<string>>): seq<string> {
    if columns == [] || values == [] then [] else [Pair(columns[0], values[0])] + Pairs(columns[1..], values[1..])
  }

  function Join(parts: seq<string>): string {
    if parts == [] then "" else if |parts| == 1 then parts[0] else parts[0] + ("," + Join(parts[1..]))
  }

  function RowJson(row: Row, columns: seq<string>): string {
    "{\"kind\":" + (Quoted(row.kind) + (",\"name\":" + (Quoted(row.name) +
    (",\"labels\":{" + (Join(Pairs(columns, row.columns)) + "}}")))))
  }

  function Objects(rows: seq<Row>, columns: seq<string>): seq<string> {
    if rows == [] then [] else [RowJson(rows[0], columns)] + Objects(rows[1..], columns)
  }

  function RowsToJson(rows: seq<Row>, columns: seq<string>): string {
    "{\"items\":[" + (Join(Objects(rows, columns)) + "]}")
  }

  // ---- the source's loops ----

  method JsonEscape(s: string) returns (out: string)
    ensures out == Escape(s)
  {
    out := "";
    assert s[0..] == s;
    for i := 0 to |s|
      invariant out + Escape(s[i..]) == Escape(s)
    {
      assert s[i..][1..] == s[i + 1..];
      assert out + (EscapeChar(s[i]) + Escape(s[i + 1..])) == (out + EscapeChar(s[i])) + Escape(s[i + 1..]);
      out := out + EscapeChar(s[i]);
    }
  }

  method LabelPair(column: string, value: Option<string>) returns (pair: string)
    ensures pair == Pair(column, value)
  {
    var rendered := "null";
    if value.Some? {
      var escaped := JsonEscape(value.value);
      rendered := "\"" + (escaped + "\"");
    }
    var key := JsonEscape(column);
    pair := ("\"" + (key + "\"")) + (":" + rendered);
  }

  /** Zipping works through both lists from the front. */
  lemma PairsFrom(columns: seq<string>, values: seq<Option<string>>, i: nat)
    requires i <= |columns| && i <= |values|
    ensures i == |columns| || i == |values| ==> Pairs(columns[i..], values[i..]) == []
    ensures i < |columns| && i < |values| ==>
              Pairs(columns[i..], values[i..]) == [Pair(columns[i], values[i])] + Pairs(columns[i + 1..], values[i + 1..])
  {
    if i < |columns| && i < |values| {
      assert columns[i..][1..] == columns[i + 1..] && values[i..][1..] == values[i + 1..];
    }
  }

  lemma Shift<T>(done: seq<T>, x: T, more: seq<T>)
    ensures done + ([x] + more) == (done + [x]) + more
  {
  }

  method LabelPairs(columns: seq<string>, values: seq<Option<string>>) returns (pairs: seq<string>)
    ensures pairs == Pairs(columns, values)
  {
    var n := if |columns| < |values| then |columns| else |values|;
    pairs := [];
    assert columns[0..] == columns && values[0..] == values;
    for i := 0 to n
      invariant pairs + Pairs(columns[i..], values[i..]) == Pairs(columns, values)
    {
      PairsFrom(columns, values, i);
      var pair := LabelPair(columns[i], values[i]);
      Shift(pairs, pair, Pairs(columns[i + 1..], values[i + 1..]));
      pairs := pairs + [pair];
    }
    PairsFrom(columns, values, n);
  }

  method RowJsonObject(row: Row, columns: seq<string>) returns (out: string)
    ensures out == RowJson(row, columns)
  {
    var kind := JsonEscape(row.kind);
    var name := JsonEscape(row.name);
    var pairs := LabelPairs(columns, row.columns);
    out := "{\"kind\":" + (("\"" + (kind + "\"")) + (",\"name\":" + (("\"" + (name + "\"")) +
           (",\"labels\":{" + (Join(pairs) + "}}")))));
  }

  // ---- escaping is uniquely decodable ----

  lemma Cancel(p: string, x: string, y: string)
    requires p + x == p + y
    ensures x == y
  {
    assert (p + x)[|p|..] == x && (p + y)[|p|..] == y;
  }

  /** An escape neither starts with a quote nor contains a control character, and its first two
      characters tell a short escape from a long one. */
  lemma EscapeShape(c: char)
    ensures var e := EscapeChar(c);
            && |e| > 0 && e[0] != '"'
            && (forall i :: 0 <= i < |e| ==> (e[i] as int) >= 0x20)
            && (if e[0] != '\\' then e == [c]
                else |e| >= 2 && (if e[1] == 'u' then |e| == 6 else |e| == 2))
  {
  }

  lemma SameEscape(c: char, d: char)
    requires EscapeChar(c) == EscapeChar(d)
    ensures c == d
  {
    var e, f := EscapeChar(c), EscapeChar(d);
    if |e| == 6 {
      assert e[4] == f[4] && e[5] == f[5];
    }
  }

  /** No escape is a proper beginning of another. */
  lemma EscapeSplits(c: char, d: char, x: string, y: string)
    requires EscapeChar(c) + x == EscapeChar(d) + y
    ensures c == d && x == y
  {
    var e, f := EscapeChar(c), EscapeChar(d);
    EscapeShape(c);
    EscapeShape(d);
    var whole := e + x;
    assert whole[0] == e[0] && whole[0] == f[0];
    if e[0] == '\\' {
      assert whole[1] == e[1] && whole[1] == f[1];
    }
    assert |e| == |f| && whole[..|e|] == e && whole[..|f|] == f;
    SameEscape(c, d);
    Cancel(e, x, y);
  }

  lemma Associate(a: string, b: string, c: string)
    ensures (a + b) + c == a + (b + c)
  {
  }

  /** Only an empty text lets the closing quote come first. */
  lemma EscapeHead(s: string, x: string)
    ensures |Escape(s) + ("\"" + x)| > 0
    ensures s == [] <==> (Escape(s) + ("\"" + x))[0] == '"'
    ensures s == [] ==> Escape(s) + ("\"" + x) == "\"" + x
    ensures s != [] ==> Escape(s) + ("\"" + x) == EscapeChar(s[0]) + (Escape(s[1..]) + ("\"" + x))
  {
    if s == [] {
      assert Escape(s) + ("\"" + x) == "\"" + x;
    } else {
      var first, more, close := EscapeChar(s[0]), Escape(s[1..]), "\"" + x;
      EscapeShape(s[0]);
      Associate(first, more, close);
      assert (first + (more + close))[0] == first[0];
    }
  }

  /** A closing quote ends an escaped text at exactly one place. */
  lemma {:induction false} EscapeEnds(s: string, t: string, x: string, y: string)
    requires Escape(s) + ("\"" + x) == Escape(t) + ("\"" + y)
    ensures s == t && x == y
    decreases |s|
  {
    EscapeHead(s, x);
    EscapeHead(t, y);
    if s == [] {
      Cancel("\"", x, y);
    } else {
      EscapeSplits(s[0], t[0], Escape(s[1..]) + ("\"" + x), Escape(t[1..]) + ("\"" + y));
      EscapeEnds(s[1..], t[1..], x, y);
      assert s == [s[0]] + s[1..] && t == [t[0]] + t[1..];
    }
  }

  lemma {:induction false} EscapedIsPrintable(s: string)
    ensures forall i :: 0 <= i < |Escape(s)| ==> (Escape(s)[i] as int) >= 0x20
  {
    if s != [] {
      EscapeShape(s[0]);
      EscapedIsPrintable(s[1..]);
    }
  }

  lemma Regroup(a: string, b: string, c: string, x: string)
    ensures (a + (b + c)) + x == a + (b + (c + x))
  {
  }

  lemma QuotedEnds(s: string, t: string, x: string, y: string)
    requires Quoted(s) + x == Quoted(t) + y
    ensures s == t && x == y
  {
    Regroup("\"", Escape(s), "\"", x);
    Regroup("\"", Escape(t), "\"", y);
    Cancel("\"", Escape(s) + ("\"" + x), Escape(t) + ("\"" + y));
    EscapeEnds(s, t, x, y);
  }

  lemma RenderedEnds(v: Option<string>, w: Option<string>, x: string, y: string)
    requires Rendered(v) + x == Rendered(w) + y
    ensures v == w && x == y
  {
    assert (Rendered(v) + x)[0] == Rendered(v)[0] && (Rendered(w) + y)[0] == Rendered(w)[0];
    if v.Some? && w.Some? {
      QuotedEnds(v.value, w.value, x, y);
    } else if v.None? && w.None? {
      Cancel("null", x, y);
    }
  }

  // ---- rows are recovered ----

  /** The labels a row shows: those with a column to show them in. */
  function Shown(columns: seq<string>, values: seq<Option<string>>): seq<Option<string>> {
    values[..if |columns| < |values| then |columns| else |values|]
  }

  lemma PairEnds(column: string, v: Option<string>, w: Option<string>, x: string, y: string)
    requires Pair(column, v) + x == Pair(column, w) + y
    ensures v == w && x == y
  {
    Regroup(Quoted(column), ":", Rendered(v), x);
    Regroup(Quoted(column), ":", Rendered(w), y);
    Cancel(Quoted(column), ":" + (Rendered(v) + x), ":" + (Rendered(w) + y));
    Cancel(":", Rendered(v) + x, Rendered(w) + y);
    RenderedEnds(v, w, x, y);
  }

  /** The text after the first part of a joined list. */
  function Tail(parts: seq<string>, close: string): string {
    if parts == [] then close else "," + (Join(parts) + close)
  }

  lemma JoinStep(part: string, parts: seq<string>, close: string)
    ensures Join([part] + parts) + close == part + Tail(parts, close)
  {
    assert ([part] + parts)[1..] == parts;
  }

  lemma ShownStep(columns: seq<string>, values: seq<Option<string>>)
    requires columns != [] && values != []
    ensures Shown(columns, values) == [values[0]] + Shown(columns[1..], values[1..])
  {
  }

  /** The labels end at their closing brace, wherever the text goes on from there. */
  lemma {:induction false} PairsEnd(
    columns: seq<string>, v: seq<Option<string>>, w: seq<Option<string>>, x: string, y: string)
    requires Join(Pairs(columns, v)) + ("}" + x) == Join(Pairs(columns, w)) + ("}" + y)
    ensures Shown(columns, v) == Shown(columns, w) && x == y
    decreases |columns|
  {
    var p, q := Pairs(columns, v), Pairs(columns, w);
    var left, right := Join(p) + ("}" + x), Join(q) + ("}" + y);
    if p == [] || q == [] {
      FirstOfPairs(columns, v, "}" + x);
      FirstOfPairs(columns, w, "}" + y);
      assert left == "}" + x && right == "}" + y;
      Cancel("}", x, y);
    } else {
      var moreP, moreQ := Pairs(columns[1..], v[1..]), Pairs(columns[1..], w[1..]);
      JoinStep(p[0], moreP, "}" + x);
      JoinStep(q[0], moreQ, "}" + y);
      var tailP, tailQ := Tail(moreP, "}" + x), Tail(moreQ, "}" + y);
      PairEnds(columns[0], v[0], w[0], tailP, tailQ);
      ShownStep(columns, v);
      ShownStep(columns, w);
      assert tailP[0] == (if moreP == [] then '}' else ',') && tailQ[0] == (if moreQ == [] then '}' else ',');
      if moreP == [] {
        assert Join(moreP) + ("}" + x) == "}" + x && Join(moreQ) + ("}" + y) == "}" + y;
      } else {
        Cancel(",", Join(moreP) + ("}" + x), Join(moreQ) + ("}" + y));
      }
      PairsEnd(columns[1..], v[1..], w[1..], x, y);
    }
  }

  /** An empty list of pairs shows at once, by what comes first. */
  lemma FirstOfPairs(columns: seq<string>, v: seq<Option<string>>, rest: string)
    ensures Pairs(columns, v) == [] ==> Join(Pairs(columns, v)) + rest == rest
    ensures Pairs(columns, v) != [] ==> |Join(Pairs(columns, v)) + rest| > 0 && (Join(Pairs(columns, v)) + rest)[0] == '"'
    ensures Pairs(columns, v) == [] <==> Shown(columns, v) == []
  {
    var p := Pairs(columns, v);
    if p != [] {
      JoinStep(p[0], p[1..], rest);
      assert p == [p[0]] + p[1..];
      assert p[0][0] == '"';
    }
  }

  predicate SameShown(a: Row, b: Row, columns: seq<string>) {
    a.kind == b.kind && a.name == b.name && Shown(columns, a.columns) == Shown(columns, b.columns)
  }

  lemma RowEnds(a: Row, b: Row, columns: seq<string>, x: string, y: string)
    requires RowJson(a, columns) + x == RowJson(b, columns) + y
    ensures SameShown(a, b, columns) && x == y
  {
    var la, lb := Join(Pairs(columns, a.columns)) + ("}" + ("}" + x)), Join(Pairs(columns, b.columns)) + ("}" + ("}" + y));
    var na, nb := Quoted(a.name) + (",\"labels\":{" + la), Quoted(b.name) + (",\"labels\":{" + lb);
    var ka, kb := Quoted(a.kind) + (",\"name\":" + na), Quoted(b.kind) + (",\"name\":" + nb);
    RowNested(a, columns, x);
    RowNested(b, columns, y);
    Cancel("{\"kind\":", ka, kb);
    QuotedEnds(a.kind, b.kind, ",\"name\":" + na, ",\"name\":" + nb);
    Cancel(",\"name\":", na, nb);
    QuotedEnds(a.name, b.name, ",\"labels\":{" + la, ",\"labels\":{" + lb);
    Cancel(",\"labels\":{", la, lb);
    PairsEnd(columns, a.columns, b.columns, "}" + x, "}" + y);
    Cancel("}", x, y);
  }

  lemma Nest(a: string, b: string, c: string, d: string, e: string, f: string, x: string)
    ensures (a + (b + (c + (d + (e + (f + "}}")))))) + x == a + (b + (c + (d + (e + (f + ("}" + ("}" + x)))))))
  {
  }

  lemma RowNested(a: Row, columns: seq<string>, x: string)
    ensures RowJson(a, columns) + x ==
            "{\"kind\":" + (Quoted(a.kind) + (",\"name\":" + (Quoted(a.name) +
            (",\"labels\":{" + (Join(Pairs(columns, a.columns)) + ("}" + ("}" + x)))))))
  {
    Nest("{\"kind\":", Quoted(a.kind), ",\"name\":", Quoted(a.name), ",\"labels\":{", Join(Pairs(columns, a.columns)), x);
  }

  ghost predicate AllSameShown(a: seq<Row>, b: seq<Row>, columns: seq<string>) {
    |a| == |b| && forall i :: 0 <= i < |a| ==> SameShown(a[i], b[i], columns)
  }

  /** The rows still to come show in the first character, and the first row is cut off whole. */
  lemma RowsHead(a: seq<Row>, columns: seq<string>)
    ensures var text := Join(Objects(a, columns)) + "]}";
            && |text| > 0
            && (a == [] <==> text[0] == ']')
            && (a != [] ==> text == RowJson(a[0], columns) + Tail(Objects(a[1..], columns), "]}"))
  {
    if a != [] {
      JoinStep(RowJson(a[0], columns), Objects(a[1..], columns), "]}");
      assert RowJson(a[0], columns)[0] == '{';
    }
  }

  lemma RowsTail(a: seq<Row>, columns: seq<string>)
    ensures var tail := Tail(Objects(a, columns), "]}");
            && |tail| > 0
            && (a == [] <==> tail[0] == ']')
            && (a != [] ==> tail == "," + (Join(Objects(a, columns)) + "]}"))
  {
  }

  lemma SameShownCons(a: seq<Row>, b: seq<Row>, columns: seq<string>)
    requires a != [] && b != []
    requires SameShown(a[0], b[0], columns) && AllSameShown(a[1..], b[1..], columns)
    ensures AllSameShown(a, b, columns)
  {
    forall i | 1 <= i < |a|
      ensures SameShown(a[i], b[i], columns)
    {
      assert SameShown(a[1..][i - 1], b[1..][i - 1], columns);
    }
  }

  lemma {:induction false} RowsEnd(a: seq<Row>, b: seq<Row>, columns: seq<string>)
    requires Join(Objects(a, columns)) + "]}" == Join(Objects(b, columns)) + "]}"
    ensures AllSameShown(a, b, columns)
    decreases |a|
  {
    RowsHead(a, columns);
    RowsHead(b, columns);
    if a != [] {
      var moreA, moreB := a[1..], b[1..];
      RowEnds(a[0], b[0], columns, Tail(Objects(moreA, columns), "]}"), Tail(Objects(moreB, columns), "]}"));
      RowsTail(moreA, columns);
      RowsTail(moreB, columns);
      if moreA != [] {
        Cancel(",", Join(Objects(moreA, columns)) + "]}", Join(Objects(moreB, columns)) + "]}");
        RowsEnd(moreA, moreB, columns);
      }
      SameShownCons(a, b, columns);
    }
  }

  /** What a row shows settles its text. */
  lemma {:induction false} PairsOfShown(columns: seq<string>, v: seq<Option<string>>, w: seq<Option<string>>)
    requires Shown(columns, v) == Shown(columns, w)
    ensures Pairs(columns, v) == Pairs(columns, w)
    decreases |columns|
  {
    if columns != [] && v != [] {
      ShownStep(columns, v);
      assert w != [] && Shown(columns, w)[0] == v[0];
      ShownStep(columns, w);
      assert Shown(columns, v)[1..] == Shown(columns[1..], v[1..]);
      assert Shown(columns, w)[1..] == Shown(columns[1..], w[1..]);
      PairsOfShown(columns[1..], v[1..], w[1..]);
    }
  }

  lemma {:induction false} ObjectsOfShown(a: seq<Row>, b: seq<Row>, columns: seq<string>)
    requires AllSameShown(a, b, columns)
    ensures Objects(a, columns) == Objects(b, columns)
  {
    if a != [] {
      assert SameShown(a[0], b[0], columns);
      PairsOfShown(columns, a[0].columns, b[0].columns);
      assert AllSameShown(a[1..], b[1..], columns) by {
        assert forall i :: 0 <= i < |a| - 1 ==> a[1..][i] == a[i + 1] && b[1..][i] == b[i + 1];
      }
      ObjectsOfShown(a[1..], b[1..], columns);
    }
  }

  /** Two listings under the same columns read alike exactly when every row shows the same kind, name and
      labels: the document loses nothing that has a column, whatever the characters are. */
  lemma DocumentsEqualIff(a: seq<Row>, b: seq<Row>, columns: seq<string>)
    ensures RowsToJson(a, columns) == RowsToJson(b, columns) <==> AllSameShown(a, b, columns)
  {
    if RowsToJson(a, columns) == RowsToJson(b, columns) {
      Cancel("{\"items\":[", Join(Objects(a, columns)) + "]}", Join(Objects(b, columns)) + "]}");
      RowsEnd(a, b, columns);
    }
    if AllSameShown(a, b, columns) {
      ObjectsOfShown(a, b, columns);
    }
  }

  /** When no row is wider than the columns the document determines the rows themselves. */
  lemma DocumentDeterminesRows(a: seq<Row>, b: seq<Row>, columns: seq<string>)
    requires forall i :: 0 <= i < |a| ==> |a[i].columns| <= |columns|
    requires forall i :: 0 <= i < |b| ==> |b[i].columns| <= |columns|
    requires RowsToJson(a, columns) == RowsToJson(b, columns)
    ensures a == b
  {
    DocumentsEqualIff(a, b, columns);
    forall i | 0 <= i < |a|
      ensures a[i] == b[i]
    {
      assert SameShown(a[i], b[i], columns);
      assert Shown(columns, a[i].columns) == a[i].columns && Shown(columns, b[i].columns) == b[i].columns;
    }
  }

  // ---- the source's map and join over all rows ----

  method RenderRows(rows: seq<Row>, columns: seq<string>) returns (out: string)
    ensures out == RowsToJson(rows, columns)
  {
    var objects: seq<string> := [];
    assert rows[0..] == rows;
    for i := 0 to |rows|
      invariant objects + Objects(rows[i..], columns) == Objects(rows, columns)
    {
      assert rows[i..][1..] == rows[i + 1..];
      var text := RowJsonObject(rows[i], columns);
      objects := objects + [text];
    }
    assert objects == Objects(rows, columns);
    out := "{\"items\":[" + (Join(objects) + "]}");
  }
}
