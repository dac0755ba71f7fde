/** The login-token wire form: a length-prefixed payload, hex, and the dotted text around it. */
module TokenCodec {
  import opened Wrappers
  import opened Bytes

  datatype Payload = Payload(serial: uint64, expiry: uint64, user: Utf8, domain: Utf8)

  function Encode(p: Payload): seq<byte> {
    ToBe(p.serial, 8) + (ToBe(p.expiry, 8) + (Field(p.user) + Field(p.domain)))
  }

  /** The lengths the 32-bit prefixes can express. */
  predicate Fits(p: Payload) {
    |p.user| < TWO_TO_THE_32 && |p.domain| < TWO_TO_THE_32
  }

  /** The payload read off the whole of `bytes`: four fields, each text valid, nothing left over. */
  function Decode(bytes: seq<byte>): Option<Payload> {
    match TakeU64(bytes)
    case None => None
    case Some((serial, afterSerial)) =>
      match TakeU64(afterSerial)
      case None => None
      case Some((expiry, afterExpiry)) => DecodeNames(serial, expiry, afterExpiry)
  }

  function DecodeNames(serial: uint64, expiry: uint64, bytes: seq<byte>): Option<Payload> {
    match TakeField(bytes)
    case None => None
    case Some((user, afterUser)) =>
      if !ValidUtf8(user) then None
      else match TakeField(afterUser)
           case None => None
           case Some((domain, rest)) =>
             if !ValidUtf8(domain) || rest != [] then None else Some(Payload(serial, expiry, user, domain))
  }

  lemma DecodeNamesIff(serial: uint64, expiry: uint64, bytes: seq<byte>, p: Payload)
    ensures DecodeNames(serial, expiry, bytes) == Some(p) <==>
            p.serial == serial && p.expiry == expiry && Fits(p) && bytes == Field(p.user) + Field(p.domain)
  {
    TakeFieldIff(bytes, p.user, Field(p.domain));
    TakeFieldIff(Field(p.domain), p.domain, []);
    assert Field(p.domain) + [] == Field(p.domain);
    if DecodeNames(serial, expiry, bytes) == Some(p) {
      var (user, afterUser) := TakeField(bytes).value;
      TakeFieldIff(bytes, user, afterUser);
      TakeFieldIff(afterUser, p.domain, []);
    }
  }

  lemma Behind(a: seq<byte>, rest: seq<byte>, n: nat)
    requires |a| == n
    ensures |a + rest| == n + |rest| && (a + rest)[n..] == rest
  {
  }

  /** Where each field stands: the serial at 0 and the expiry at 8, as numbers; then at 16 the user and behind it the
      domain, each after its length, and nothing more. */
  lemma PayloadLayout(p: Payload)
    requires Fits(p)
    ensures var b := Encode(p);
            && |b| >= 20 + |p.user|
            && TakeU64(b) == Some((p.serial, b[8..])) && TakeU64(b[8..]) == Some((p.expiry, b[16..]))
            && TakeField(b[16..]) == Some((p.user, b[20 + |p.user|..]))
            && TakeField(b[20 + |p.user|..]) == Some((p.domain, []))
  {
    var names := Field(p.user) + Field(p.domain);
    var afterSerial := ToBe(p.expiry, 8) + names;
    var b := Encode(p);
    TakeU64Iff(b, p.serial, afterSerial);
    TakeU64Iff(afterSerial, p.expiry, names);
    TakeFieldIff(names, p.user, Field(p.domain));
    TakeFieldIff(Field(p.domain), p.domain, []);
    Behind(Field(p.domain), [], |Field(p.domain)|);
    Behind(ToBe(p.serial, 8), afterSerial, 8);
    Behind(ToBe(p.expiry, 8), names, 8);
    Behind(Field(p.user), Field(p.domain), 4 + |p.user|);
    Dropped(b, 8, 8);
    Dropped(b, 16, 4 + |p.user|);
  }

  lemma Dropped(b: seq<byte>, i: nat, j: nat)
    requires i + j <= |b|
    ensures b[i..][j..] == b[i + j..]
  {
  }

  /** The codec is canonical: `bytes` decode to `p` exactly when `p` fits and encodes to `bytes`. */
  lemma DecodeIff(bytes: seq<byte>, p: Payload)
    ensures Decode(bytes) == Some(p) <==> Fits(p) && Encode(p) == bytes
  {
    var names := Field(p.user) + Field(p.domain);
    if Fits(p) && Encode(p) == bytes {
      TakeU64Iff(bytes, p.serial, ToBe(p.expiry, 8) + names);
      TakeU64Iff(ToBe(p.expiry, 8) + names, p.expiry, names);
      DecodeNamesIff(p.serial, p.expiry, names, p);
    }
    if Decode(bytes) == Some(p) {
      var (serial, afterSerial) := TakeU64(bytes).value;
      var (expiry, afterExpiry) := TakeU64(afterSerial).value;
      TakeU64Iff(bytes, serial, afterSerial);
      TakeU64Iff(afterSerial, expiry, afterExpiry);
      DecodeNamesIff(serial, expiry, afterExpiry, p);
    }
  }

  lemma OversizedNames(p: Payload)
    requires !Fits(p)
    ensures DecodeNames(p.serial, p.expiry, Field(p.user) + Field(p.domain)).None?
  {
    var names := Field(p.user) + Field(p.domain);
    TakeFieldLength(p.user, Field(p.domain));
    var (user, afterUser) := TakeField(names).value;
    if |p.user| < TWO_TO_THE_32 {
      TakeFieldIff(names, p.user, Field(p.domain));
      TakeFieldLength(p.domain, []);
      assert Field(p.domain) + [] == Field(p.domain);
    } else {
      assert |afterUser| >= TWO_TO_THE_32 + 4;
    }
  }

  /** Decoding inverts encoding exactly when both lengths fit their prefixes; an oversized field
      makes the bytes undecodable, never decodable as something else. */
  lemma DecodeOfEncode(p: Payload)
    ensures Decode(Encode(p)) == if Fits(p) then Some(p) else None
  {
    DecodeIff(Encode(p), p);
    if !Fits(p) {
      var names := Field(p.user) + Field(p.domain);
      TakeU64Iff(Encode(p), p.serial, ToBe(p.expiry, 8) + names);
      TakeU64Iff(ToBe(p.expiry, 8) + names, p.expiry, names);
      OversizedNames(p);
    }
  }

  lemma Regroup(a: seq<byte>, b: seq<byte>, c: seq<byte>, d: seq<byte>, e: seq<byte>, f: seq<byte>)
    ensures ((((a + b) + c) + d) + e) + f == a + (b + ((c + d) + (e + f)))
  {
  }

  method EncodePayload(p: Payload) returns (out: seq<byte>)
    ensures out == Encode(p)
  {
    out := ToBe(p.serial, 8);
    out := out + ToBe(p.expiry, 8);
    out := out + Len32(|p.user|);
    out := out + p.user;
    out := out + Len32(|p.domain|);
    out := out + p.domain;
    Regroup(ToBe(p.serial, 8), ToBe(p.expiry, 8), Len32(|p.user|), p.user, Len32(|p.domain|), p.domain);
  }

  /** The source's left-to-right reader with its cursor. */
  method DecodePayload(bytes: seq<byte>) returns (r: Option<Payload>)
    ensures r == Decode(bytes)
  {
    assert bytes[0..] == bytes;
    var serial, pos := ReadU64(bytes, 0);
    if serial.None? { return None; }
    var expiry;
    expiry, pos := ReadU64(bytes, pos);
    if expiry.None? { return None; }
    var user;
    user, pos := ReadField(bytes, pos);
    if user.None? || !ValidUtf8(user.value) { return None; }
    var domain;
    domain, pos := ReadField(bytes, pos);
    if domain.None? || !ValidUtf8(domain.value) { return None; }
    if pos != |bytes| { return None; }
    return Some(Payload(serial.value, expiry.value, user.value, domain.value));
  }

  // ---- the dotted text form ----

  const PREFIX := "pt2."

  function TokenText(payload: seq<byte>, sig: seq<byte>): string {
    PREFIX + HexEncode(payload) + "." + HexEncode(sig)
  }

  /** The position of the first dot, or the length without one. */
  function FirstDot(s: string): (k: nat)
    ensures k <= |s| && (k < |s| ==> s[k] == '.') && forall i :: 0 <= i < k ==> s[i] != '.'
  {
    if s == [] || s[0] == '.' then 0 else 1 + FirstDot(s[1..])
  }

  /** The two byte strings a token text carries. */
  function ParseToken(token: string): Option<(seq<byte>, seq<byte>)> {
    if !(PREFIX <= token) then None
    else
      var rest := token[|PREFIX|..];
      var k := FirstDot(rest);
      if k == |rest| then None
      else match (HexDecode(rest[..k]), HexDecode(rest[k + 1..]))
           case (Some(payload), Some(sig)) => Some((payload, sig))
           case _ => None
  }

  lemma {:induction false} HexHasNoDot(bs: seq<byte>, i: nat)
    requires i < 2 * |bs|
    ensures HexEncode(bs)[i] != '.'
  {
    if i >= 2 {
      HexHasNoDot(bs[1..], i - 2);
    }
  }

  lemma DotSplit(h: string, g: string)
    requires forall i :: 0 <= i < |h| ==> h[i] != '.'
    ensures FirstDot(h + "." + g) == |h| && (h + "." + g)[..|h|] == h && (h + "." + g)[|h| + 1..] == g
  {
    var rest := h + "." + g;
    assert rest[|h|] == '.';
  }

  lemma PrefixSplit(h: string, g: string)
    ensures PREFIX <= PREFIX + h + "." + g && (PREFIX + h + "." + g)[|PREFIX|..] == h + "." + g
  {
  }

  /** The text form splits back into the same two parts. */
  lemma TextRoundTrip(payload: seq<byte>, sig: seq<byte>)
    ensures ParseToken(TokenText(payload, sig)) == Some((payload, sig))
  {
    var h, g := HexEncode(payload), HexEncode(sig);
    forall i | 0 <= i < |h|
      ensures h[i] != '.'
    {
      HexHasNoDot(payload, i);
    }
    PrefixSplit(h, g);
    DotSplit(h, g);
    HexRoundTrip(payload);
    HexRoundTrip(sig);
  }

  /** The only texts carrying two given parts are the printed one and its variants in the case of
      the hex digits. */
  lemma TextVariants(token: string)
    requires ParseToken(token).Some?
    ensures var (payload, sig) := ParseToken(token).value;
            exists h, g :: && token == PREFIX + h + "." + g && IsHex(h) && IsHex(g)
                           && LowerHex(h) == HexEncode(payload) && LowerHex(g) == HexEncode(sig)
  {
    var rest := token[|PREFIX|..];
    var k := FirstDot(rest);
    var h, g := rest[..k], rest[k + 1..];
    HexAccepts(h);
    HexAccepts(g);
    HexCanonical(h);
    HexCanonical(g);
    assert token == PREFIX + h + "." + g;
  }

  method SplitToken(token: string) returns (r: Option<(seq<byte>, seq<byte>)>)
    ensures r == ParseToken(token)
  {
    if !(PREFIX <= token) { return None; }
    var rest := token[|PREFIX|..];
    var k := FirstDot(rest);
    if k == |rest| { return None; }
    var payload := DecodeHex(rest[..k]);
    if payload.None? { return None; }
    var sig := DecodeHex(rest[k + 1..]);
    if sig.None? { return None; }
    return Some((payload.value, sig.value));
  }
}
