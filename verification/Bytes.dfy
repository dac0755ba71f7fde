/** Bytes, fixed-width big-endian integers, UTF-8 well-formedness and lowercase hex. */
module Bytes {
  import opened Wrappers

  type byte = x: int | 0 <= x < 256

  const TWO_TO_THE_32: int := 0x1_0000_0000
  const TWO_TO_THE_64: int := 0x1_0000_0000_0000_0000

  type uint32 = x: int | 0 <= x < TWO_TO_THE_32
  type uint64 = x: int | 0 <= x < TWO_TO_THE_64

  // ---- big-endian integers ----

  function Pow256(n: nat): (p: nat)
    ensures p > 0
  {
    if n == 0 then 1 else 256 * Pow256(n - 1)
  }

  lemma PowersUsed()
    ensures Pow256(4) == TWO_TO_THE_32 && Pow256(8) == TWO_TO_THE_64
  {
    assert Pow256(4) == 256 * (256 * (256 * (256 * Pow256(0))));
    assert Pow256(8) == 256 * (256 * (256 * (256 * Pow256(4))));
  }

  function ToBe(n: nat, width: nat): (bs: seq<byte>)
    ensures |bs| == width
  {
    if width == 0 then [] else ToBe(n / 256, width - 1) + [n % 256]
  }

  function FromBe(bs: seq<byte>): (n: nat)
    ensures n < Pow256(|bs|)
  {
    if bs == [] then 0 else 256 * FromBe(bs[..|bs| - 1]) + bs[|bs| - 1]
  }

  lemma QuotientBound(n: nat, bound: nat)
    requires n < 256 * bound
    ensures n / 256 < bound && 256 * (n / 256) + n % 256 == n
  {
  }

  lemma FromBeAppend(bs: seq<byte>, b: byte)
    ensures FromBe(bs + [b]) == 256 * FromBe(bs) + b
  {
    assert (bs + [b])[..|bs|] == bs;
  }

  lemma {:induction false} FromToBe(n: nat, width: nat)
    requires n < Pow256(width)
    ensures FromBe(ToBe(n, width)) == n
  {
    if width == 0 {
    } else {
      QuotientBound(n, Pow256(width - 1));
      FromToBe(n / 256, width - 1);
      FromBeAppend(ToBe(n / 256, width - 1), n % 256);
    }
  }

  lemma {:induction false} ToFromBe(bs: seq<byte>)
    ensures ToBe(FromBe(bs), |bs|) == bs
  {
    if bs == [] {
    } else {
      ToFromBe(bs[..|bs| - 1]);
    }
  }

  /** A 32-bit length prefix truncates, as the source's cast does. */
  function Len32(n: nat): (bs: seq<byte>)
    ensures |bs| == 4
  {
    ToBe(n % TWO_TO_THE_32, 4)
  }

  lemma Len32Value(n: nat)
    ensures FromBe(Len32(n)) == n % TWO_TO_THE_32
  {
    PowersUsed();
    FromToBe(n % TWO_TO_THE_32, 4);
  }

  lemma Be32Canonical(bs: seq<byte>)
    requires |bs| == 4
    ensures Len32(FromBe(bs)) == bs && FromBe(bs) < TWO_TO_THE_32
  {
    PowersUsed();
    ToFromBe(bs);
    var n := FromBe(bs);
    assert n < TWO_TO_THE_32;
    assert n % TWO_TO_THE_32 == n;
  }

  lemma Be64Canonical(bs: seq<byte>)
    requires |bs| == 8
    ensures ToBe(FromBe(bs), 8) == bs && FromBe(bs) < TWO_TO_THE_64
  {
    PowersUsed();
    ToFromBe(bs);
  }

  lemma Be64Value(n: uint64)
    ensures FromBe(ToBe(n, 8)) == n
  {
    PowersUsed();
    FromToBe(n, 8);
  }

  // ---- reading fields off the front of a buffer ----

  function TakeU32(bytes: seq<byte>): Option<(uint32, seq<byte>)> {
    PowersUsed();
    if |bytes| < 4 then None else Some((FromBe(bytes[..4]), bytes[4..]))
  }

  function TakeU64(bytes: seq<byte>): Option<(uint64, seq<byte>)> {
    PowersUsed();
    if |bytes| < 8 then None else Some((FromBe(bytes[..8]), bytes[8..]))
  }

  /** A field: its length in 32 bits, truncated as the source's cast does, then its bytes. */
  function Field(b: seq<byte>): seq<byte> {
    Len32(|b|) + b
  }

  function TakeField(bytes: seq<byte>): Option<(seq<byte>, seq<byte>)> {
    match TakeU32(bytes)
    case None => None
    case Some((len, rest)) => if |rest| < len then None else Some((rest[..len], rest[len..]))
  }

  lemma TakeU64Iff(bytes: seq<byte>, n: uint64, rest: seq<byte>)
    ensures TakeU64(bytes) == Some((n, rest)) <==> bytes == ToBe(n, 8) + rest
  {
    if bytes == ToBe(n, 8) + rest {
      Be64Value(n);
      assert bytes[..8] == ToBe(n, 8) && bytes[8..] == rest;
    }
    if TakeU64(bytes) == Some((n, rest)) {
      Be64Canonical(bytes[..8]);
      assert bytes == bytes[..8] + bytes[8..];
    }
  }

  lemma TakeU32Iff(bytes: seq<byte>, n: uint32, rest: seq<byte>)
    ensures TakeU32(bytes) == Some((n, rest)) <==> bytes == Len32(n) + rest
  {
    if bytes == Len32(n) + rest {
      Len32Value(n);
      assert bytes[..4] == Len32(n) && bytes[4..] == rest;
    }
    if TakeU32(bytes) == Some((n, rest)) {
      Be32Canonical(bytes[..4]);
      assert bytes == bytes[..4] + bytes[4..];
    }
  }

  /** Taking a field succeeds with `b` exactly on the encodings of `b` whose length fits. */
  lemma TakeFieldIff(bytes: seq<byte>, b: seq<byte>, rest: seq<byte>)
    ensures TakeField(bytes) == Some((b, rest)) <==> bytes == Field(b) + rest && |b| < TWO_TO_THE_32
  {
    if bytes == Field(b) + rest && |b| < TWO_TO_THE_32 {
      assert bytes == Len32(|b|) + (b + rest);
      TakeU32Iff(bytes, |b|, b + rest);
    }
    if TakeField(bytes) == Some((b, rest)) {
      var (len, after) := TakeU32(bytes).value;
      TakeU32Iff(bytes, len, after);
      assert after == b + rest;
      assert bytes == Len32(len) + (b + rest) == Field(b) + rest;
    }
  }

  /** An oversized field reads back as a shorter one: its length modulo 2^32. */
  lemma TakeFieldLength(b: seq<byte>, rest: seq<byte>)
    ensures TakeField(Field(b) + rest).Some?
    ensures |TakeField(Field(b) + rest).value.0| == |b| % TWO_TO_THE_32
    ensures |TakeField(Field(b) + rest).value.1| == |b| - |b| % TWO_TO_THE_32 + |rest|
  {
    var bytes, n := Field(b) + rest, |b| % TWO_TO_THE_32;
    assert n % TWO_TO_THE_32 == n;
    assert bytes == Len32(n) + (b + rest);
    TakeU32Iff(bytes, n, b + rest);
  }

  /** Cursor reads: on success the cursor moves past what was taken from `inp[pos..]`. */
  method ReadU32(inp: seq<byte>, pos: nat) returns (r: Option<uint32>, pos': nat)
    requires pos <= |inp|
    ensures pos <= pos' <= |inp|
    ensures TakeU32(inp[pos..]) == if r.Some? then Some((r.value, inp[pos'..])) else None
  {
    if |inp| < pos + 4 {
      return None, pos;
    }
    assert inp[pos..][..4] == inp[pos..pos + 4] && inp[pos..][4..] == inp[pos + 4..];
    PowersUsed();
    return Some(FromBe(inp[pos..pos + 4])), pos + 4;
  }

  method ReadU64(inp: seq<byte>, pos: nat) returns (r: Option<uint64>, pos': nat)
    requires pos <= |inp|
    ensures pos <= pos' <= |inp|
    ensures TakeU64(inp[pos..]) == if r.Some? then Some((r.value, inp[pos'..])) else None
  {
    if |inp| < pos + 8 {
      return None, pos;
    }
    assert inp[pos..][..8] == inp[pos..pos + 8] && inp[pos..][8..] == inp[pos + 8..];
    PowersUsed();
    return Some(FromBe(inp[pos..pos + 8])), pos + 8;
  }

  method ReadField(inp: seq<byte>, pos: nat) returns (r: Option<seq<byte>>, pos': nat)
    requires pos <= |inp|
    ensures pos <= pos' <= |inp|
    ensures TakeField(inp[pos..]) == if r.Some? then Some((r.value, inp[pos'..])) else None
  {
    var len, at := ReadU32(inp, pos);
    if len.None? || |inp| < at + len.value {
      return None, pos;
    }
    assert inp[at..][..len.value] == inp[at..at + len.value] && inp[at..][len.value..] == inp[at + len.value..];
    return Some(inp[at..at + len.value]), at + len.value;
  }

  // ---- UTF-8 ----

  predicate IsTail(b: byte) {
    0x80 <= b <= 0xBF
  }

  /** The length of the well-formed sequence `s` starts with, or 0 (table 3-7 of the Unicode
      standard). */
  function ScalarLength(s: seq<byte>): (n: nat)
    ensures n <= |s|
  {
    if |s| >= 1 && s[0] <= 0x7F then 1
    else if |s| >= 2 && 0xC2 <= s[0] <= 0xDF && IsTail(s[1]) then 2
    else if |s| >= 3 && s[0] == 0xE0 && 0xA0 <= s[1] <= 0xBF && IsTail(s[2]) then 3
    else if |s| >= 3 && s[0] == 0xED && 0x80 <= s[1] <= 0x9F && IsTail(s[2]) then 3
    else if |s| >= 3 && 0xE1 <= s[0] <= 0xEF && s[0] != 0xED && IsTail(s[1]) && IsTail(s[2]) then 3
    else if |s| >= 4 && s[0] == 0xF0 && 0x90 <= s[1] <= 0xBF && IsTail(s[2]) && IsTail(s[3]) then 4
    else if |s| >= 4 && 0xF1 <= s[0] <= 0xF3 && IsTail(s[1]) && IsTail(s[2]) && IsTail(s[3]) then 4
    else if |s| >= 4 && s[0] == 0xF4 && 0x80 <= s[1] <= 0x8F && IsTail(s[2]) && IsTail(s[3]) then 4
    else 0
  }

  predicate ValidUtf8(s: seq<byte>) {
    s == [] || (ScalarLength(s) > 0 && ValidUtf8(s[ScalarLength(s)..]))
  }

  /** The bytes of a text value. */
  type Utf8 = s: seq<byte> | ValidUtf8(s)

  // ---- hex ----

  function HexDigit(v: nat): char
    requires v < 16
  {
    if v < 10 then '0' + v as char else 'a' + (v - 10) as char
  }

  /** A digit of either case; `None` for anything else. */
  function DigitValue(c: char): (r: Option<nat>)
    ensures r.Some? ==> r.value < 16
  {
    if '0' <= c <= '9' then Some(c as int - '0' as int)
    else if 'a' <= c <= 'f' then Some(c as int - 'a' as int + 10)
    else if 'A' <= c <= 'F' then Some(c as int - 'A' as int + 10)
    else None
  }

  function HexEncode(bs: seq<byte>): (s: string)
    ensures |s| == 2 * |bs|
  {
    if bs == [] then "" else [HexDigit(bs[0] / 16), HexDigit(bs[0] % 16)] + HexEncode(bs[1..])
  }

  predicate IsHex(s: string) {
    |s| % 2 == 0 && forall i :: 0 <= i < |s| ==> DigitValue(s[i]).Some?
  }

  function LowerDigit(c: char): char {
    if 'A' <= c <= 'F' then 'a' + (c - 'A') else c
  }

  /** The same digits in lower case. */
  function LowerHex(s: string): string {
    if s == [] then [] else [LowerDigit(s[0])] + LowerHex(s[1..])
  }

  /** The bytes whose encoding is `s` up to the case of its digits. */
  function HexDecode(s: string): (r: Option<seq<byte>>)
  {
    if s == [] then Some([])
    else if |s| == 1 then None
    else
      match (DigitValue(s[0]), DigitValue(s[1]), HexDecode(s[2..]))
      case (Some(hi), Some(lo), Some(rest)) => Some([16 * hi + lo] + rest)
      case _ => None
  }

  lemma {:induction false} HexRoundTrip(bs: seq<byte>)
    ensures HexDecode(HexEncode(bs)) == Some(bs)
  {
    if bs == [] {
    } else {
      HexRoundTrip(bs[1..]);
      assert HexEncode(bs)[2..] == HexEncode(bs[1..]);
      assert [bs[0]] + bs[1..] == bs;
    }
  }

  /** Decoding accepts exactly the even-length digit strings. */
  lemma {:induction false} HexAccepts(s: string)
    ensures HexDecode(s).Some? <==> IsHex(s)
  {
    if |s| < 2 {
    } else {
      HexAccepts(s[2..]);
      assert forall i :: 2 <= i < |s| ==> s[i] == s[2..][i - 2];
    }
  }

  lemma Nibbles(hi: nat, lo: nat)
    requires hi < 16 && lo < 16
    ensures 0 <= 16 * hi + lo < 256 && (16 * hi + lo) / 16 == hi && (16 * hi + lo) % 16 == lo
  {
  }

  lemma DigitOfValue(c: char)
    requires DigitValue(c).Some?
    ensures HexDigit(DigitValue(c).value) == LowerDigit(c)
  {
  }

  /** Re-encoding what decoding accepted only lower-cases it. */
  lemma {:induction false} HexCanonical(s: string)
    requires IsHex(s)
    ensures HexDecode(s).Some? && HexEncode(HexDecode(s).value) == LowerHex(s)
  {
    if s == [] {
    } else {
      var hi, lo, rest := DigitValue(s[0]).value, DigitValue(s[1]).value, s[2..];
      assert IsHex(rest);
      HexCanonical(rest);
      Nibbles(hi, lo);
      DigitOfValue(s[0]);
      DigitOfValue(s[1]);
      assert s[1..][1..] == rest;
      var b: byte := 16 * hi + lo;
      var bs := HexDecode(rest).value;
      assert HexDecode(s) == Some([b] + bs);
      assert ([b] + bs)[1..] == bs;
    }
  }

  method EncodeHex(bs: seq<byte>) returns (out: string)
    ensures out == HexEncode(bs)
  {
    out := "";
    for i := 0 to |bs|
      invariant out + HexEncode(bs[i..]) == HexEncode(bs)
    {
      assert bs[i..][1..] == bs[i + 1..];
      out := out + [HexDigit(bs[i] / 16), HexDigit(bs[i] % 16)];
    }
  }

  function Prepend(out: seq<byte>, r: Option<seq<byte>>): Option<seq<byte>> {
    if r.Some? then Some(out + r.value) else None
  }

  lemma HexDecodePair(out: seq<byte>, s: string, i: nat)
    requires i + 1 < |s|
    ensures var hi, lo := DigitValue(s[i]), DigitValue(s[i + 1]);
            Prepend(out, HexDecode(s[i..])) ==
            if hi.None? || lo.None? then None
            else Prepend(out + [16 * hi.value + lo.value], HexDecode(s[i + 2..]))
  {
    assert s[i..][2..] == s[i + 2..];
    var rest := HexDecode(s[i + 2..]);
    if DigitValue(s[i]).Some? && DigitValue(s[i + 1]).Some? && rest.Some? {
      var b: byte := 16 * DigitValue(s[i]).value + DigitValue(s[i + 1]).value;
      assert out + ([b] + rest.value) == (out + [b]) + rest.value;
    }
  }

  method DecodeHex(s: string) returns (r: Option<seq<byte>>)
    ensures r == HexDecode(s)
  {
    if |s| % 2 != 0 {
      HexAccepts(s);
      return None;
    }
    var out: seq<byte> := [];
    var i := 0;
    assert s[0..] == s && (HexDecode(s).Some? ==> out + HexDecode(s).value == HexDecode(s).value);
    while i < |s|
      invariant 0 <= i <= |s| && i % 2 == 0
      invariant HexDecode(s) == Prepend(out, HexDecode(s[i..]))
    {
      HexDecodePair(out, s, i);
      var hi, lo := DigitValue(s[i]), DigitValue(s[i + 1]);
      if hi.None? || lo.None? {
        return None;
      }
      out := out + [16 * hi.value + lo.value];
      i := i + 2;
    }
    assert s[i..] == [] && out + [] == out;
    return Some(out);
  }
}
