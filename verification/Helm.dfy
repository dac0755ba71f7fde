/** The helm-style renderer: a text template with `{{ key }}` holes filled from a values map. */
module Helm {
  import opened Wrappers

  type Values = map<string, string>

  datatype RenderError = MissingValue(key: string) | UnterminatedPlaceholder(text: string)

  /** The first place where `c` stands twice in a row. */
  function FindDouble(s: string, c: char): (r: Option<nat>)
    ensures r.Some? ==> r.value + 1 < |s|
  {
    if |s| < 2 then None
    else if s[0] == c && s[1] == c then Some(0)
    else
      match FindDouble(s[1..], c)
      case None => None
      case Some(k) => Some(k + 1)
  }

  predicate NoDouble(s: string, c: char) {
    |s| < 2 || (!(s[0] == c && s[1] == c) && NoDouble(s[1..], c))
  }

  lemma {:induction false} FoundIsFirst(s: string, c: char)
    ensures var r := FindDouble(s, c);
            if r.None? then NoDouble(s, c)
            else s[r.value] == c && s[r.value + 1] == c && NoDouble(s[..r.value + 1], c)
  {
    if |s| >= 2 && !(s[0] == c && s[1] == c) {
      FoundIsFirst(s[1..], c);
      var r := FindDouble(s[1..], c);
      if r.Some? {
        assert s[..r.value + 2][1..] == s[1..][..r.value + 1];
      }
    }
  }

  lemma {:induction false} NoneFound(s: string, c: char)
    requires NoDouble(s, c)
    ensures FindDouble(s, c) == None
  {
    if |s| >= 2 {
      NoneFound(s[1..], c);
    }
  }

  /** White space as Unicode defines it, which is what trimming removes. */
  predicate IsWhite(c: char) {
    var n := c as int;
    || 0x09 <= n <= 0x0D || n == 0x20 || n == 0x85 || n == 0xA0 || n == 0x1680 || 0x2000 <= n <= 0x200A
    || n == 0x2028 || n == 0x2029 || n == 0x202F || n == 0x205F || n == 0x3000
  }

  function TrimStart(s: string): string {
    if s != [] && IsWhite(s[0]) then TrimStart(s[1..]) else s
  }

  function TrimEnd(s: string): string {
    if s != [] && IsWhite(s[|s| - 1]) then TrimEnd(s[..|s| - 1]) else s
  }

  function Trim(s: string): string {
    TrimEnd(TrimStart(s))
  }

  // ---- templates as trees ----

  /** A template: literal text, then a hole, and so on; the end is literal, or an opening that is
      never closed. */
  datatype Template =
    | End(rest: string)
    | Hole(literal: string, inner: string, next: Template)
    | Unclosed(literal: string, rest: string)

  function Print(t: Template): string {
    match t
    case End(rest) => rest
    case Hole(literal, inner, next) => literal + ("{{" + (inner + ("}}" + Print(next))))
    case Unclosed(literal, rest) => literal + rest
  }

  /** Text after which a doubled `c` is seen where it starts, not one place earlier. */
  predicate Clear(s: string, c: char) {
    NoDouble(s, c) && (s != [] ==> s[|s| - 1] != c)
  }

  predicate WellFormed(t: Template) {
    match t
    case End(rest) => NoDouble(rest, '{')
    case Hole(literal, inner, next) => Clear(literal, '{') && Clear(inner, '}') && WellFormed(next)
    case Unclosed(literal, rest) => Clear(literal, '{') && "{{" <= rest && NoDouble(rest[2..], '}')
  }

  function Parse(text: string): Template
    decreases |text|
  {
    match FindDouble(text, '{')
    case None => End(text)
    case Some(open) =>
      var after := text[open + 2..];
      match FindDouble(after, '}')
      case None => Unclosed(text[..open], text[open..])
      case Some(close) => Hole(text[..open], after[..close], Parse(after[close + 2..]))
  }

  // ---- every text is exactly one well-formed template ----

  lemma {:induction false} NoDoublePrefix(s: string, c: char)
    requires s != [] && NoDouble(s, c)
    ensures NoDouble(s[..|s| - 1], c)
    ensures |s| >= 2 ==> !(s[|s| - 2] == c && s[|s| - 1] == c)
    decreases |s|
  {
    if |s| > 2 {
      NoDoublePrefix(s[1..], c);
      assert s[..|s| - 1][1..] == s[1..][..|s| - 2];
    }
  }

  /** What stands before the first doubled `c` is clear of it. */
  lemma FoundIsClear(s: string, c: char)
    requires FindDouble(s, c).Some?
    ensures Clear(s[..FindDouble(s, c).value], c)
  {
    var k := FindDouble(s, c).value;
    var upTo := s[..k + 1];
    FoundIsFirst(s, c);
    NoDoublePrefix(upTo, c);
    assert upTo[..k] == s[..k];
  }

  /** After clear text, a doubled `c` is found right where it starts. */
  lemma {:induction false} FindAfterClear(s: string, c: char, rest: string)
    requires Clear(s, c)
    ensures FindDouble(s + ([c, c] + rest), c) == Some(|s|)
    decreases |s|
  {
    var text := s + ([c, c] + rest);
    if s == [] {
      assert text == [c, c] + rest;
    } else {
      assert text[1..] == s[1..] + ([c, c] + rest);
      assert s[1..] != [] ==> s[1..][|s| - 2] == s[|s| - 1];
      FindAfterClear(s[1..], c, rest);
    }
  }

  lemma Cut(a: string, c: char, b: string)
    ensures (a + ([c, c] + b))[..|a|] == a && (a + ([c, c] + b))[|a| + 2..] == b
    ensures (a + ([c, c] + b))[|a|..] == [c, c] + b
  {
  }

  lemma Splice(s: string, k: nat, c: char)
    requires k + 1 < |s| && s[k] == c && s[k + 1] == c
    ensures s == s[..k] + ([c, c] + s[k + 2..]) && s[k..] == [c, c] + s[k + 2..]
  {
  }

  /** A hole found where its parts say it is. */
  lemma ParseHoleAt(text: string, literal: string, after: string, inner: string, rest: string)
    requires FindDouble(text, '{') == Some(|literal|) && text[..|literal|] == literal && text[|literal| + 2..] == after
    requires FindDouble(after, '}') == Some(|inner|) && after[..|inner|] == inner && after[|inner| + 2..] == rest
    ensures Parse(text) == Hole(literal, inner, Parse(rest))
  {
  }

  lemma ParseHole(literal: string, inner: string, rest: string)
    requires Clear(literal, '{') && Clear(inner, '}')
    ensures Parse(literal + ("{{" + (inner + ("}}" + rest)))) == Hole(literal, inner, Parse(rest))
  {
    var after := inner + ("}}" + rest);
    var text := literal + ("{{" + after);
    FindAfterClear(literal, '{', after);
    Cut(literal, '{', after);
    FindAfterClear(inner, '}', rest);
    Cut(inner, '}', rest);
    ParseHoleAt(text, literal, after, inner, rest);
  }

  lemma ParseUnclosed(literal: string, after: string)
    requires Clear(literal, '{') && NoDouble(after, '}')
    ensures Parse(literal + ("{{" + after)) == Unclosed(literal, "{{" + after)
  {
    FindAfterClear(literal, '{', after);
    Cut(literal, '{', after);
    NoneFound(after, '}');
  }

  /** A search splits the text into what is clear and what follows the double. */
  lemma FoundSplits(s: string, c: char)
    requires FindDouble(s, c).Some?
    ensures var k := FindDouble(s, c).value;
            Clear(s[..k], c) && s == s[..k] + ([c, c] + s[k + 2..]) && s[k..] == [c, c] + s[k + 2..]
  {
    FoundIsFirst(s, c);
    FoundIsClear(s, c);
    Splice(s, FindDouble(s, c).value, c);
  }

  /** The template is the well-formed one that prints as the text. */
  ghost predicate Stands(t: Template, text: string) {
    Print(t) == text && WellFormed(t)
  }

  lemma EndStands(text: string)
    requires NoDouble(text, '{')
    ensures Stands(End(text), text)
  {
  }

  lemma HoleStands(literal: string, inner: string, next: Template, rest: string)
    requires Clear(literal, '{') && Clear(inner, '}') && Stands(next, rest)
    ensures Stands(Hole(literal, inner, next), literal + (['{', '{'] + (inner + (['}', '}'] + rest))))
  {
  }

  lemma UnclosedStands(literal: string, after: string)
    requires Clear(literal, '{') && NoDouble(after, '}')
    ensures Stands(Unclosed(literal, ['{', '{'] + after), literal + (['{', '{'] + after))
  {
    assert (['{', '{'] + after)[2..] == after;
  }

  /** How a text parses, by what the two searches find. */
  lemma ParseCases(text: string)
    ensures var open := FindDouble(text, '{');
            if open.None? then Parse(text) == End(text)
            else
              var after := text[open.value + 2..];
              var close := FindDouble(after, '}');
              if close.None? then Parse(text) == Unclosed(text[..open.value], text[open.value..])
              else Parse(text) == Hole(text[..open.value], after[..close.value], Parse(after[close.value + 2..]))
  {
  }

  /** Printing undoes parsing, and parsing only makes well-formed templates. */
  lemma {:induction false} PrintOfParse(text: string)
    ensures Stands(Parse(text), text)
    decreases |text|
  {
    ParseCases(text);
    var open := FindDouble(text, '{');
    if open.None? {
      FoundIsFirst(text, '{');
      EndStands(text);
    } else {
      var literal, after := text[..open.value], text[open.value + 2..];
      FoundSplits(text, '{');
      var close := FindDouble(after, '}');
      if close.None? {
        FoundIsFirst(after, '}');
        UnclosedStands(literal, after);
      } else {
        var inner, rest := after[..close.value], after[close.value + 2..];
        FoundSplits(after, '}');
        PrintOfParse(rest);
        HoleStands(literal, inner, Parse(rest), rest);
      }
    }
  }

  /** Parsing undoes printing, so texts and well-formed templates correspond one to one. */
  lemma {:induction false} ParseOfPrint(t: Template)
    requires WellFormed(t)
    ensures Parse(Print(t)) == t
  {
    match t {
      case End(rest) =>
        NoneFound(rest, '{');
      case Hole(literal, inner, next) =>
        ParseOfPrint(next);
        ParseHole(literal, inner, Print(next));
      case Unclosed(literal, rest) =>
        assert rest == "{{" + rest[2..];
        ParseUnclosed(literal, rest[2..]);
    }
  }

  // ---- rendering ----

  /** The keys of the holes, in order. */
  function Keys(t: Template): seq<string> {
    if t.Hole? then [Trim(t.inner)] + Keys(t.next) else []
  }

  /** The literals with the values in place; inserted values are not looked at again. */
  function Fill(t: Template, values: Values): string
    requires forall k :: k in Keys(t) ==> k in values
  {
    match t
    case End(rest) => rest
    case Hole(literal, inner, next) =>
      assert Keys(t)[0] == Trim(inner) && forall k :: k in Keys(next) ==> k in Keys(t);
      literal + values[Trim(inner)] + Fill(next, values)
    case Unclosed(literal, rest) => literal + rest
  }

  function Ending(t: Template): Template {
    if t.Hole? then Ending(t.next) else t
  }

  /** What rendering yields: the first key without a value, else an unclosed opening, else the
      filled text. */
  function Render(t: Template, values: Values): Result<string, RenderError> {
    match t
    case End(rest) => Ok(rest)
    case Unclosed(_, rest) => Err(UnterminatedPlaceholder(rest))
    case Hole(literal, inner, next) =>
      if Trim(inner) !in values then Err(MissingValue(Trim(inner)))
      else
        match Render(next, values)
        case Err(e) => Err(e)
        case Ok(rest) => Ok(literal + values[Trim(inner)] + rest)
  }

  lemma {:induction false} RenderMeaning(t: Template, values: Values)
    ensures Render(t, values).Ok? <==> Ending(t).End? && forall k :: k in Keys(t) ==> k in values
    ensures Render(t, values).Ok? ==> Render(t, values).value == Fill(t, values)
    ensures forall key :: Render(t, values) == Err(MissingValue(key)) <==>
              exists i :: && 0 <= i < |Keys(t)| && Keys(t)[i] == key && key !in values
                          && forall j :: 0 <= j < i ==> Keys(t)[j] in values
    ensures forall text :: Render(t, values) == Err(UnterminatedPlaceholder(text)) <==>
              Ending(t).Unclosed? && Ending(t).rest == text && forall k :: k in Keys(t) ==> k in values
  {
    if t.Hole? {
      RenderMeaning(t.next, values);
      var key := Trim(t.inner);
      assert Keys(t)[0] == key && Keys(t)[1..] == Keys(t.next);
      assert forall i :: 0 <= i < |Keys(t.next)| ==> Keys(t)[i + 1] == Keys(t.next)[i];
    }
  }

  function Before(out: string, r: Result<string, RenderError>): Result<string, RenderError> {
    if r.Ok? then Ok(out + r.value) else r
  }

  lemma BeforeTwice(out: string, more: string, r: Result<string, RenderError>)
    ensures Before(out, Before(more, r)) == Before(out + more, r)
  {
    if r.Ok? {
      assert out + (more + r.value) == (out + more) + r.value;
    }
  }

  /** One round of the scanner on a text that opens at `open`. */
  lemma RenderRound(rest: string, values: Values)
    requires FindDouble(rest, '{').Some?
    ensures var open := FindDouble(rest, '{').value;
            var after := rest[open + 2..];
            var close := FindDouble(after, '}');
            Render(Parse(rest), values) ==
            if close.None? then Err(UnterminatedPlaceholder(rest[open..]))
            else
              var key := Trim(after[..close.value]);
              if key !in values then Err(MissingValue(key))
              else Before(rest[..open] + values[key], Render(Parse(after[close.value + 2..]), values))
  {
  }

  /** What is written so far and what is left to scan come to the whole. */
  ghost predicate Progress(whole: Result<string, RenderError>, out: string, rest: string, values: Values) {
    whole == Before(out, Render(Parse(rest), values))
  }

  lemma NothingWritten(template: string, values: Values)
    ensures Progress(Render(Parse(template), values), "", template, values)
  {
    var r := Render(Parse(template), values);
    assert r.Ok? ==> "" + r.value == r.value;
  }

  lemma NothingLeft(whole: Result<string, RenderError>, out: string, rest: string, values: Values)
    requires Progress(whole, out, rest, values) && FindDouble(rest, '{').None?
    ensures whole == Ok(out + rest)
  {
  }

  lemma OneHoleFilled(
    whole: Result<string, RenderError>, out: string, rest: string, values: Values, literal: string, value: string, more: string)
    requires Progress(whole, out, rest, values)
    requires Render(Parse(rest), values) == Before(literal + value, Render(Parse(more), values))
    ensures Progress(whole, (out + literal) + value, more, values)
  {
    BeforeTwice(out, literal + value, Render(Parse(more), values));
    assert (out + literal) + value == out + (literal + value);
  }

  /** The source's scanner. */
  method RenderText(template: string, values: Values) returns (r: Result<string, RenderError>)
    ensures r == Render(Parse(template), values)
  {
    var out := "";
    var rest := template;
    ghost var whole := Render(Parse(template), values);
    NothingWritten(template, values);
    while true
      invariant Progress(whole, out, rest, values)
      decreases |rest|
    {
      var open := FindDouble(rest, '{');
      if open.None? { break; }
      RenderRound(rest, values);
      var after := rest[open.value + 2..];
      var close := FindDouble(after, '}');
      if close.None? { return Err(UnterminatedPlaceholder(rest[open.value..])); }
      var key := Trim(after[..close.value]);
      if key !in values { return Err(MissingValue(key)); }
      OneHoleFilled(whole, out, rest, values, rest[..open.value], values[key], after[close.value + 2..]);
      out := out + rest[..open.value];
      out := out + values[key];
      rest := after[close.value + 2..];
    }
    NothingLeft(whole, out, rest, values);
    out := out + rest;
    return Ok(out);
  }

  // ---- padding ----

  predicate AllWhite(s: string) {
    forall i :: 0 <= i < |s| ==> IsWhite(s[i])
  }

  lemma {:induction false} TrimStartPadded(pad: string, s: string)
    requires AllWhite(pad)
    ensures TrimStart(pad + s) == TrimStart(s)
    decreases |pad|
  {
    if pad == [] {
      assert pad + s == s;
    } else {
      assert (pad + s)[1..] == pad[1..] + s;
      TrimStartPadded(pad[1..], s);
    }
  }

  lemma {:induction false} TrimEndPadded(s: string, pad: string)
    requires AllWhite(pad)
    ensures TrimEnd(s + pad) == TrimEnd(s)
    decreases |pad|
  {
    if pad == [] {
      assert s + pad == s;
    } else {
      assert (s + pad)[..|s + pad| - 1] == s + pad[..|pad| - 1];
      TrimEndPadded(s, pad[..|pad| - 1]);
    }
  }

  /** Trimming the front stops inside the name, or goes on into what follows an all-white one. */
  lemma {:induction false} TrimStartBefore(s: string, rest: string)
    ensures TrimStart(s + rest) == if TrimStart(s) == [] then TrimStart(rest) else TrimStart(s) + rest
  {
    if s == [] {
      assert s + rest == rest;
    } else if IsWhite(s[0]) {
      assert (s + rest)[1..] == s[1..] + rest;
      TrimStartBefore(s[1..], rest);
    }
  }

  lemma PaddedTrims(left: string, name: string, right: string)
    requires AllWhite(left) && AllWhite(right)
    ensures Trim(left + name + right) == Trim(name)
  {
    assert left + name + right == left + (name + right);
    TrimStartPadded(left, name + right);
    TrimStartBefore(name, right);
    assert right + [] == right;
    TrimStartPadded(right, []);
    TrimEndPadded(TrimStart(name), right);
  }

  lemma TrimStartStops(s: string)
    requires s != [] ==> !IsWhite(s[0])
    ensures TrimStart(s) == s
  {
  }

  /** What trimming leaves of a padded name is the name itself, when it neither starts nor ends with white space. */
  lemma TrimFindsTheName(left: string, name: string, right: string)
    requires AllWhite(left) && AllWhite(right)
    requires name != [] ==> !IsWhite(name[0]) && !IsWhite(name[|name| - 1])
    ensures Trim(left + name + right) == name
  {
    PaddedTrims(left, name, right);
    TrimStartStops(name);
  }

  /** Two templates with the same literals and the same names in their holes, however padded. */
  predicate SameUpToPadding(t: Template, u: Template) {
    match t
    case Hole(literal, inner, next) =>
      u.Hole? && u.literal == literal && Trim(u.inner) == Trim(inner) && SameUpToPadding(next, u.next)
    case _ => t == u
  }

  lemma {:induction false} PaddingRendersAlike(t: Template, u: Template, values: Values)
    requires SameUpToPadding(t, u)
    ensures Render(t, values) == Render(u, values)
  {
    if t.Hole? {
      PaddingRendersAlike(t.next, u.next, values);
    }
  }

  predicate DoubleAt(s: string, c: char, i: nat) {
    i + 1 < |s| && s[i] == c && s[i + 1] == c
  }

  lemma {:induction false} NoDoubleIff(s: string, c: char)
    ensures NoDouble(s, c) <==> forall i: nat :: !DoubleAt(s, c, i)
  {
    if |s| >= 2 {
      var rest := s[1..];
      NoDoubleIff(rest, c);
      forall i: nat
        ensures DoubleAt(rest, c, i) <==> DoubleAt(s, c, i + 1)
      {
      }
      if i: nat :| DoubleAt(s, c, i) && i > 0 {
        assert DoubleAt(rest, c, i - 1);
      }
      assert DoubleAt(s, c, 0) <==> s[0] == c && s[1] == c;
    }
  }

  lemma ClearPadded(left: string, name: string, right: string, c: char)
    requires AllWhite(left) && AllWhite(right) && !IsWhite(c) && Clear(name, c)
    ensures Clear(left + name + right, c)
  {
    var s := left + name + right;
    NoDoubleIff(name, c);
    NoDoubleIff(s, c);
    forall i: nat
      ensures !DoubleAt(s, c, i)
    {
      assert |left| <= i ==> !DoubleAt(name, c, i - |left|);
    }
  }

  lemma {:induction false} SameAsItself(t: Template)
    ensures SameUpToPadding(t, t)
  {
    if t.Hole? {
      SameAsItself(t.next);
    }
  }

  /** White space around a name inside the braces does not matter to what is rendered. */
  lemma PaddingIgnored(literal: string, left: string, name: string, right: string, rest: string, values: Values)
    requires Clear(literal, '{') && Clear(name, '}') && AllWhite(left) && AllWhite(right)
    ensures Render(Parse(literal + ("{{" + ((left + name + right) + ("}}" + rest)))), values) ==
            Render(Parse(literal + ("{{" + (name + ("}}" + rest)))), values)
  {
    ClearPadded(left, name, right, '}');
    ParseHole(literal, left + name + right, rest);
    ParseHole(literal, name, rest);
    PaddedTrims(left, name, right);
    PaddingRendersOne(literal, left + name + right, name, Parse(rest), values);
  }

  lemma PaddingRendersOne(literal: string, inner: string, name: string, next: Template, values: Values)
    requires Trim(inner) == Trim(name)
    ensures Render(Hole(literal, inner, next), values) == Render(Hole(literal, name, next), values)
  {
    SameAsItself(next);
    PaddingRendersAlike(Hole(literal, inner, next), Hole(literal, name, next), values);
  }
}
