/** Line-oriented text fields: limited splitting at newlines and decimal numbers. */
module Lines {
  import opened Wrappers
  import opened Bytes

  predicate OneLine(s: string) {
    forall i :: 0 <= i < |s| ==> s[i] != '\n'
  }

  function FirstBreak(s: string): (k: nat)
    ensures k <= |s| && OneLine(s[..k]) && (k < |s| ==> s[k] == '\n')
  {
    if s == [] || s[0] == '\n' then 0
    else
      var k := FirstBreak(s[1..]);
      assert s[..k + 1] == [s[0]] + s[1..][..k];
      k + 1
  }

  /** At most `n` pieces, cut at the first newlines; the last piece keeps the rest. */
  function SplitN(s: string, n: nat): (pieces: seq<string>)
    requires n > 0
    ensures 0 < |pieces| <= n
    decreases |s|
  {
    var k := FirstBreak(s);
    if n == 1 || k == |s| then [s] else [s[..k]] + SplitN(s[k + 1..], n - 1)
  }

  lemma {:induction false} FirstBreakAfter(a: string, rest: string)
    requires OneLine(a)
    ensures FirstBreak(a + ("\n" + rest)) == |a|
    decreases |a|
  {
    var s := a + ("\n" + rest);
    if a == [] {
      assert s[0] == '\n';
    } else {
      assert s[1..] == a[1..] + ("\n" + rest);
      FirstBreakAfter(a[1..], rest);
    }
  }

  /** A one-line field is cut off exactly. */
  lemma SplitField(a: string, rest: string, n: nat)
    requires OneLine(a) && n > 1
    ensures SplitN(a + ("\n" + rest), n) == [a] + SplitN(rest, n - 1)
  {
    var s := a + ("\n" + rest);
    FirstBreakAfter(a, rest);
    assert s[..|a|] == a && s[|a| + 1..] == rest;
  }

  // ---- three free-text fields on one tail ----

  datatype Triple = Triple(signer: string, name: string, content: string)

  function JoinTriple(t: Triple): string {
    t.signer + ("\n" + (t.name + ("\n" + t.content)))
  }

  /** A missing field reads as empty. */
  function PieceOr(pieces: seq<string>, i: nat): string {
    if i < |pieces| then pieces[i] else ""
  }

  /** How three joined fields read back. */
  function ReadTriple(text: string): Triple {
    var pieces := SplitN(text, 3);
    Triple(PieceOr(pieces, 0), PieceOr(pieces, 1), PieceOr(pieces, 2))
  }

  lemma {:induction false} FirstBreakBound(s: string, i: nat)
    requires i < |s| && s[i] == '\n'
    ensures FirstBreak(s) <= i
    decreases |s|
  {
    if i > 0 && s[0] != '\n' {
      FirstBreakBound(s[1..], i - 1);
    }
  }

  /** Three joined fields read back unchanged exactly when the first two are one line each. */
  lemma TripleRoundTripIff(t: Triple)
    ensures ReadTriple(JoinTriple(t)) == t <==> OneLine(t.signer) && OneLine(t.name)
  {
    var tail := t.name + ("\n" + t.content);
    if OneLine(t.signer) {
      SplitField(t.signer, tail, 3);
      if OneLine(t.name) {
        SplitField(t.name, t.content, 2);
      } else {
        var i :| 0 <= i < |t.name| && t.name[i] == '\n';
        FirstBreakBound(tail, i);
        assert |SplitN(tail, 2)[0]| <= i;
      }
    } else {
      var i :| 0 <= i < |t.signer| && t.signer[i] == '\n';
      FirstBreakBound(JoinTriple(t), i);
      assert |SplitN(JoinTriple(t), 3)[0]| <= i;
    }
  }

  // ---- decimal numbers ----

  function Digit(v: nat): char
    requires v < 10
  {
    '0' + v as char
  }

  function Decimal(n: nat): (s: string)
    ensures |s| > 0
  {
    if n < 10 then [Digit(n)] else Decimal(n / 10) + [Digit(n % 10)]
  }

  predicate IsDigit(c: char) {
    '0' <= c <= '9'
  }

  /** The value of a non-empty digit string. */
  function DigitsValue(s: string): Option<nat> {
    if s == [] then Some(0)
    else if !IsDigit(s[|s| - 1]) then None
    else
      match DigitsValue(s[..|s| - 1])
      case None => None
      case Some(v) => Some(10 * v + (s[|s| - 1] as int - '0' as int))
  }

  /** Parsing as the standard library does for 64-bit numbers: an optional plus sign, then digits. */
  function ParseU64(s: string): Option<uint64> {
    var digits := if s != [] && s[0] == '+' then s[1..] else s;
    if digits == [] then None
    else
      match DigitsValue(digits)
      case None => None
      case Some(v) => if v < TWO_TO_THE_64 then Some(v) else None
  }

  lemma {:induction false} DecimalDigits(n: nat)
    ensures forall i :: 0 <= i < |Decimal(n)| ==> IsDigit(Decimal(n)[i])
    ensures DigitsValue(Decimal(n)) == Some(n)
  {
    var s := Decimal(n);
    if n < 10 {
      assert s[..0] == [];
    } else {
      DecimalDigits(n / 10);
      assert s[..|s| - 1] == Decimal(n / 10);
    }
  }

  lemma DecimalRoundTrip(n: uint64)
    ensures ParseU64(Decimal(n)) == Some(n) && OneLine(Decimal(n))
  {
    DecimalDigits(n);
    assert IsDigit(Decimal(n)[0]);
  }
}
