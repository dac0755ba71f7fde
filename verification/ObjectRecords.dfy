/** The content-addressed object block: a version and visibility byte, then length-prefixed fields
    with a counted list of links. */
module ObjectRecords {
  import opened Wrappers
  import opened Bytes

  const RECORD_VERSION: byte := 1

  datatype Visibility = Public | Sealed

  function VisToByte(v: Visibility): byte {
    match v case Public => 0 case Sealed => 1
  }

  function VisFromByte(b: byte): Option<Visibility> {
    if b == 0 then Some(Public) else if b == 1 then Some(Sealed) else None
  }

  datatype Record = Record(
    signer: seq<byte>, signature: seq<byte>, visibility: Visibility, author: Utf8,
    body: seq<byte>, recipientCount: uint32, links: seq<seq<byte>>)

  function EncodeLinks(links: seq<seq<byte>>): seq<byte> {
    if links == [] then [] else Field(links[0]) + EncodeLinks(links[1..])
  }

  function EncodeRest(r: Record): seq<byte> {
    Len32(r.recipientCount) + (Len32(|r.links|) + (EncodeLinks(r.links) + Field(r.body)))
  }

  function EncodeFields(r: Record): seq<byte> {
    Field(r.signer) + (Field(r.signature) + (Field(r.author) + EncodeRest(r)))
  }

  function Encode(r: Record): seq<byte> {
    [RECORD_VERSION, VisToByte(r.visibility)] + EncodeFields(r)
  }

  /** The lengths and the link count the 32-bit prefixes can express. */
  predicate Fits(r: Record) {
    && |r.signer| < TWO_TO_THE_32 && |r.signature| < TWO_TO_THE_32 && |r.author| < TWO_TO_THE_32
    && |r.body| < TWO_TO_THE_32 && |r.links| < TWO_TO_THE_32
    && forall i :: 0 <= i < |r.links| ==> |r.links[i]| < TWO_TO_THE_32
  }

  // ---- reading ----

  function TakeLinks(bytes: seq<byte>, count: nat): Option<(seq<seq<byte>>, seq<byte>)> {
    if count == 0 then Some(([], bytes))
    else
      match TakeField(bytes)
      case None => None
      case Some((link, rest)) =>
        match TakeLinks(rest, count - 1)
        case None => None
        case Some((links, after)) => Some(([link] + links, after))
  }

  /** Everything after the author: counts, links and body. Trailing bytes are not looked at. */
  function DecodeRest(signer: seq<byte>, signature: seq<byte>, vis: Visibility, author: Utf8, bytes: seq<byte>)
    : Option<Record>
  {
    match TakeU32(bytes)
    case None => None
    case Some((recipientCount, afterCount)) =>
      match TakeU32(afterCount)
      case None => None
      case Some((linkCount, afterLinkCount)) =>
        match TakeLinks(afterLinkCount, linkCount)
        case None => None
        case Some((links, afterLinks)) =>
          match TakeField(afterLinks)
          case None => None
          case Some((body, _)) => Some(Record(signer, signature, vis, author, body, recipientCount, links))
  }

  function DecodeFields(vis: Visibility, bytes: seq<byte>): Option<Record> {
    match TakeField(bytes)
    case None => None
    case Some((signer, afterSigner)) =>
      match TakeField(afterSigner)
      case None => None
      case Some((signature, afterSignature)) =>
        match TakeField(afterSignature)
        case None => None
        case Some((author, afterAuthor)) =>
          if ValidUtf8(author) then DecodeRest(signer, signature, vis, author, afterAuthor) else None
  }

  function Decode(bytes: seq<byte>): Option<Record> {
    if |bytes| < 2 || bytes[0] != RECORD_VERSION then None
    else
      match VisFromByte(bytes[1])
      case None => None
      case Some(vis) => DecodeFields(vis, bytes[2..])
  }

  // ---- decoding accepts exactly the extensions of an encoding ----

  lemma {:induction false} TakeLinksIff(bytes: seq<byte>, links: seq<seq<byte>>, rest: seq<byte>)
    ensures TakeLinks(bytes, |links|) == Some((links, rest)) <==>
            bytes == EncodeLinks(links) + rest && forall i :: 0 <= i < |links| ==> |links[i]| < TWO_TO_THE_32
    decreases |links|
  {
    if links == [] {
      assert EncodeLinks(links) + rest == rest;
    } else {
      var tail := EncodeLinks(links[1..]) + rest;
      assert EncodeLinks(links) + rest == Field(links[0]) + tail;
      TakeFieldIff(bytes, links[0], tail);
      TakeLinksIff(tail, links[1..], rest);
      assert [links[0]] + links[1..] == links;
      if TakeLinks(bytes, |links|) == Some((links, rest)) {
        var (link, after) := TakeField(bytes).value;
        var (more, end) := TakeLinks(after, |links| - 1).value;
        assert links[1..] == more;
        TakeFieldIff(bytes, link, after);
        TakeLinksIff(after, links[1..], rest);
      }
    }
  }

  lemma {:induction false} TakeLinksCount(bytes: seq<byte>, count: nat)
    ensures TakeLinks(bytes, count).Some? ==> |TakeLinks(bytes, count).value.0| == count
  {
    if count > 0 && TakeField(bytes).Some? {
      TakeLinksCount(TakeField(bytes).value.1, count - 1);
    }
  }

  predicate RestFits(r: Record) {
    && |r.body| < TWO_TO_THE_32 && |r.links| < TWO_TO_THE_32
    && forall i :: 0 <= i < |r.links| ==> |r.links[i]| < TWO_TO_THE_32
  }

  lemma PrefixUnder(a: seq<byte>, x: seq<byte>, y: seq<byte>)
    requires x <= y
    ensures a + x <= a + y
  {
  }

  lemma DecodeRestOf(r: Record, rest: seq<byte>)
    requires RestFits(r)
    ensures DecodeRest(r.signer, r.signature, r.visibility, r.author, EncodeRest(r) + rest) == Some(r)
  {
    var afterLinks := Field(r.body) + rest;
    var afterLinkCount := EncodeLinks(r.links) + afterLinks;
    var afterCount := Len32(|r.links|) + afterLinkCount;
    assert EncodeRest(r) + rest == Len32(r.recipientCount) + afterCount;
    TakeU32Iff(EncodeRest(r) + rest, r.recipientCount, afterCount);
    TakeU32Iff(afterCount, |r.links|, afterLinkCount);
    TakeLinksIff(afterLinkCount, r.links, afterLinks);
    TakeFieldIff(afterLinks, r.body, rest);
  }

  lemma DecodeRestGives(signer: seq<byte>, signature: seq<byte>, vis: Visibility, author: Utf8, bytes: seq<byte>)
    requires DecodeRest(signer, signature, vis, author, bytes).Some?
    ensures var r := DecodeRest(signer, signature, vis, author, bytes).value;
            RestFits(r) && EncodeRest(r) <= bytes
  {
    var r := DecodeRest(signer, signature, vis, author, bytes).value;
    var (recipientCount, afterCount) := TakeU32(bytes).value;
    var (linkCount, afterLinkCount) := TakeU32(afterCount).value;
    var (links, afterLinks) := TakeLinks(afterLinkCount, linkCount).value;
    var (body, rest) := TakeField(afterLinks).value;
    TakeU32Iff(bytes, recipientCount, afterCount);
    TakeU32Iff(afterCount, linkCount, afterLinkCount);
    TakeLinksCount(afterLinkCount, linkCount);
    TakeLinksIff(afterLinkCount, links, afterLinks);
    TakeFieldIff(afterLinks, body, rest);
    assert Field(body) <= afterLinks;
    PrefixUnder(EncodeLinks(links), Field(body), afterLinks);
    PrefixUnder(Len32(linkCount), EncodeLinks(links) + Field(body), afterLinkCount);
    PrefixUnder(Len32(recipientCount), Len32(linkCount) + (EncodeLinks(links) + Field(body)), afterCount);
  }

  lemma DecodeFieldsOf(r: Record, rest: seq<byte>)
    requires Fits(r)
    ensures DecodeFields(r.visibility, EncodeFields(r) + rest) == Some(r)
  {
    var afterAuthor := EncodeRest(r) + rest;
    var afterSignature := Field(r.author) + afterAuthor;
    var afterSigner := Field(r.signature) + afterSignature;
    Regroup4(Field(r.signer), Field(r.signature), Field(r.author), EncodeRest(r), rest);
    TakeFieldIff(EncodeFields(r) + rest, r.signer, afterSigner);
    TakeFieldIff(afterSigner, r.signature, afterSignature);
    TakeFieldIff(afterSignature, r.author, afterAuthor);
    DecodeRestOf(r, rest);
  }

  lemma Regroup4(a: seq<byte>, b: seq<byte>, c: seq<byte>, d: seq<byte>, e: seq<byte>)
    ensures (a + (b + (c + d))) + e == a + (b + (c + (d + e)))
  {
  }

  lemma DecodeFieldsGives(vis: Visibility, bytes: seq<byte>)
    requires DecodeFields(vis, bytes).Some?
    ensures var r := DecodeFields(vis, bytes).value;
            Fits(r) && r.visibility == vis && EncodeFields(r) <= bytes
  {
    var r := DecodeFields(vis, bytes).value;
    var (signer, afterSigner) := TakeField(bytes).value;
    var (signature, afterSignature) := TakeField(afterSigner).value;
    var (author, afterAuthor) := TakeField(afterSignature).value;
    TakeFieldIff(bytes, signer, afterSigner);
    TakeFieldIff(afterSigner, signature, afterSignature);
    TakeFieldIff(afterSignature, author, afterAuthor);
    DecodeRestGives(signer, signature, vis, author, afterAuthor);
    PrefixUnder(Field(author), EncodeRest(r), afterAuthor);
    PrefixUnder(Field(signature), Field(author) + EncodeRest(r), afterSignature);
    PrefixUnder(Field(signer), Field(signature) + (Field(author) + EncodeRest(r)), afterSigner);
  }

  lemma DecodeVia(bytes: seq<byte>, vis: Visibility, fields: seq<byte>)
    requires bytes == [RECORD_VERSION, VisToByte(vis)] + fields
    ensures Decode(bytes) == DecodeFields(vis, fields)
  {
    assert bytes[2..] == fields;
  }

  lemma DecodeOfExtension(r: Record, rest: seq<byte>)
    requires Fits(r)
    ensures Decode(Encode(r) + rest) == Some(r)
  {
    var fields := EncodeFields(r);
    Associate([RECORD_VERSION, VisToByte(r.visibility)], fields, rest);
    DecodeVia(Encode(r) + rest, r.visibility, fields + rest);
    DecodeFieldsOf(r, rest);
  }

  lemma HeaderSplit(bytes: seq<byte>)
    requires |bytes| >= 2
    ensures bytes == [bytes[0], bytes[1]] + bytes[2..]
  {
  }

  lemma VisRoundTrip(b: byte)
    requires VisFromByte(b).Some?
    ensures VisToByte(VisFromByte(b).value) == b
  {
  }

  lemma DecodedIsPrefix(bytes: seq<byte>)
    ensures Decode(bytes).Some? ==> Fits(Decode(bytes).value) && Encode(Decode(bytes).value) <= bytes
  {
    if Decode(bytes).Some? {
      var vis, fields := VisFromByte(bytes[1]).value, bytes[2..];
      VisRoundTrip(bytes[1]);
      HeaderSplit(bytes);
      DecodeVia(bytes, vis, fields);
      DecodeFieldsGives(vis, fields);
      PrefixUnder([RECORD_VERSION, VisToByte(vis)], EncodeFields(DecodeFields(vis, fields).value), fields);
    }
  }

  /** Decoding yields `r` exactly on the byte strings that start with the encoding of `r`, for the
      records whose lengths fit; so the encodings are prefix-free and decoding inverts encoding. */
  lemma DecodeIff(bytes: seq<byte>, r: Record)
    ensures Decode(bytes) == Some(r) <==> Fits(r) && Encode(r) <= bytes
  {
    if Fits(r) && Encode(r) <= bytes {
      var rest := bytes[|Encode(r)|..];
      assert bytes == Encode(r) + rest;
      DecodeOfExtension(r, rest);
    }
    if Decode(bytes) == Some(r) {
      DecodedIsPrefix(bytes);
    }
  }

  /** The order of the fields: version, visibility, signer, signature, author, and then the rest. */
  lemma HeadLayout(r: Record)
    requires Fits(r)
    ensures var b, afterSignature := Encode(r), Field(r.author) + EncodeRest(r);
            && |b| >= 2 && b[0] == 1 && b[1] == (if r.visibility.Public? then 0 else 1)
            && TakeField(b[2..]) == Some((r.signer, Field(r.signature) + afterSignature))
            && TakeField(Field(r.signature) + afterSignature) == Some((r.signature, afterSignature))
            && TakeField(afterSignature) == Some((r.author, EncodeRest(r)))
  {
    var rest := EncodeRest(r);
    var afterSignature := Field(r.author) + rest;
    assert Encode(r)[2..] == EncodeFields(r);
    TakeFieldIff(EncodeFields(r), r.signer, Field(r.signature) + afterSignature);
    TakeFieldIff(Field(r.signature) + afterSignature, r.signature, afterSignature);
    TakeFieldIff(afterSignature, r.author, rest);
  }

  /** The rest: the number of recipients, the number of links, the links in order, the body, and nothing more. */
  lemma RestLayout(r: Record)
    requires Fits(r)
    ensures var afterLinks := Field(r.body);
            var afterCounts := EncodeLinks(r.links) + afterLinks;
            var afterRecipients := Len32(|r.links|) + afterCounts;
            && TakeU32(EncodeRest(r)) == Some((r.recipientCount, afterRecipients))
            && TakeU32(afterRecipients) == Some((|r.links|, afterCounts))
            && TakeLinks(afterCounts, |r.links|) == Some((r.links, afterLinks))
            && TakeField(afterLinks) == Some((r.body, []))
  {
    var afterLinks := Field(r.body);
    var afterCounts := EncodeLinks(r.links) + afterLinks;
    TakeU32Iff(EncodeRest(r), r.recipientCount, Len32(|r.links|) + afterCounts);
    TakeU32Iff(Len32(|r.links|) + afterCounts, |r.links|, afterCounts);
    TakeLinksIff(afterCounts, r.links, afterLinks);
    assert afterLinks + [] == afterLinks;
    TakeFieldIff(afterLinks, r.body, []);
  }

  /** The round trip, exactly when every length fits. */
  lemma RoundTripIff(r: Record)
    ensures Decode(Encode(r)) == Some(r) <==> Fits(r)
  {
    DecodeIff(Encode(r), r);
  }

  // ---- a body too long for its prefix ----

  /** Everything but the body fits its prefix. */
  predicate HeadFits(r: Record) {
    && |r.signer| < TWO_TO_THE_32 && |r.signature| < TWO_TO_THE_32 && |r.author| < TWO_TO_THE_32
    && |r.links| < TWO_TO_THE_32
    && forall i :: 0 <= i < |r.links| ==> |r.links[i]| < TWO_TO_THE_32
  }

  /** The bytes a 32-bit length prefix leaves of a body. */
  function Cut(body: seq<byte>): seq<byte> {
    body[..|body| % TWO_TO_THE_32]
  }

  lemma FieldCut(body: seq<byte>)
    ensures |Cut(body)| < TWO_TO_THE_32
    ensures Field(body) == Field(Cut(body)) + body[|body| % TWO_TO_THE_32..]
    ensures Cut(body) == body <==> |body| < TWO_TO_THE_32
  {
    var n := |body| % TWO_TO_THE_32;
    assert Len32(|Cut(body)|) == Len32(|body|) by {
      assert n % TWO_TO_THE_32 == n;
    }
    assert body == Cut(body) + body[n..];
  }

  lemma Regroup3(a: seq<byte>, b: seq<byte>, c: seq<byte>, d: seq<byte>, e: seq<byte>)
    ensures a + (b + (c + (d + e))) == (a + (b + (c + d))) + e
  {
  }

  lemma EncodeCut(r: Record)
    ensures Encode(r) == Encode(r.(body := Cut(r.body))) + r.body[|r.body| % TWO_TO_THE_32..]
  {
    var q, tail := r.(body := Cut(r.body)), r.body[|r.body| % TWO_TO_THE_32..];
    FieldCut(r.body);
    Regroup3(Len32(r.recipientCount), Len32(|r.links|), EncodeLinks(r.links), Field(q.body), tail);
    assert EncodeRest(r) == EncodeRest(q) + tail;
    Regroup4(Field(r.signer), Field(r.signature), Field(r.author), EncodeRest(q), tail);
    Associate([RECORD_VERSION, VisToByte(r.visibility)], EncodeFields(q), tail);
  }

  /** With the other fields in range a record always decodes, its body cut to its length modulo 2^32: the reader
      does not look at what follows. */
  lemma DecodeCutsTheBody(r: Record)
    requires HeadFits(r)
    ensures Decode(Encode(r)) == Some(r.(body := Cut(r.body)))
  {
    var q := r.(body := Cut(r.body));
    EncodeCut(r);
    FieldCut(r.body);
    DecodeOfExtension(q, r.body[|r.body| % TWO_TO_THE_32..]);
  }

  // ---- the buffer-pushing writer and the cursor reader ----

  lemma {:induction false} EncodeLinksAppend(links: seq<seq<byte>>, link: seq<byte>)
    ensures EncodeLinks(links + [link]) == EncodeLinks(links) + Field(link)
  {
    if links == [] {
      assert links + [link] == [link];
    } else {
      EncodeLinksAppend(links[1..], link);
      assert (links + [link])[1..] == links[1..] + [link];
    }
  }

  lemma Regroup7(
    a: seq<byte>, b: seq<byte>, c: seq<byte>, d: seq<byte>, e: seq<byte>, f: seq<byte>, g: seq<byte>, h: seq<byte>)
    ensures ((((((a + b) + c) + d) + e) + f) + g) + h == a + (b + (c + (d + (e + (f + (g + h))))))
  {
  }

  method EncodeRecord(r: Record) returns (out: seq<byte>)
    ensures out == Encode(r)
  {
    out := [RECORD_VERSION, VisToByte(r.visibility)];
    out := out + Field(r.signer);
    out := out + Field(r.signature);
    out := out + Field(r.author);
    out := out + Len32(r.recipientCount);
    out := out + Len32(|r.links|);
    var links := WriteLinks(r.links, out);
    out := links + Field(r.body);
    Regroup7([RECORD_VERSION, VisToByte(r.visibility)], Field(r.signer), Field(r.signature), Field(r.author),
             Len32(r.recipientCount), Len32(|r.links|), EncodeLinks(r.links), Field(r.body));
  }

  lemma Associate(a: seq<byte>, b: seq<byte>, c: seq<byte>)
    ensures (a + b) + c == a + (b + c)
  {
  }

  method WriteLinks(links: seq<seq<byte>>, head: seq<byte>) returns (out: seq<byte>)
    ensures out == head + EncodeLinks(links)
  {
    out := head;
    for i := 0 to |links|
      invariant out == head + EncodeLinks(links[..i])
    {
      EncodeLinksAppend(links[..i], links[i]);
      assert links[..i + 1] == links[..i] + [links[i]];
      Associate(head, EncodeLinks(links[..i]), Field(links[i]));
      out := out + Field(links[i]);
    }
    assert links[..|links|] == links;
  }

  function PrependLinks(links: seq<seq<byte>>, r: Option<(seq<seq<byte>>, seq<byte>)>)
    : Option<(seq<seq<byte>>, seq<byte>)>
  {
    if r.Some? then Some((links + r.value.0, r.value.1)) else None
  }

  method ReadLinks(inp: seq<byte>, start: nat, count: nat) returns (r: Option<seq<seq<byte>>>, pos: nat)
    requires start <= |inp|
    ensures pos <= |inp|
    ensures TakeLinks(inp[start..], count) == if r.Some? then Some((r.value, inp[pos..])) else None
  {
    var links := [];
    pos := start;
    assert TakeLinks(inp[start..], count).Some? ==>
        [] + TakeLinks(inp[start..], count).value.0 == TakeLinks(inp[start..], count).value.0;
    for i := 0 to count
      invariant pos <= |inp|
      invariant TakeLinks(inp[start..], count) == PrependLinks(links, TakeLinks(inp[pos..], count - i))
    {
      var link;
      link, pos := ReadField(inp, pos);
      if link.None? {
        return None, start;
      }
      ghost var more := TakeLinks(inp[pos..], count - i - 1);
      assert more.Some? ==> links + ([link.value] + more.value.0) == (links + [link.value]) + more.value.0;
      links := links + [link.value];
    }
    assert links + [] == links;
    return Some(links), pos;
  }

  method ReadRest(bytes: seq<byte>, start: nat, signer: seq<byte>, signature: seq<byte>, vis: Visibility, author: Utf8)
    returns (r: Option<Record>)
    requires start <= |bytes|
    ensures r == DecodeRest(signer, signature, vis, author, bytes[start..])
  {
    var recipientCount, pos := ReadU32(bytes, start);
    if recipientCount.None? { return None; }
    var linkCount;
    linkCount, pos := ReadU32(bytes, pos);
    if linkCount.None? { return None; }
    var links;
    links, pos := ReadLinks(bytes, pos, linkCount.value);
    if links.None? { return None; }
    var body;
    body, pos := ReadField(bytes, pos);
    if body.None? { return None; }
    return Some(Record(signer, signature, vis, author, body.value, recipientCount.value, links.value));
  }

  method DecodeRecord(bytes: seq<byte>) returns (r: Option<Record>)
    ensures r == Decode(bytes)
  {
    if |bytes| == 0 || bytes[0] != RECORD_VERSION { return None; }
    if |bytes| < 2 { return None; }
    var vis := VisFromByte(bytes[1]);
    if vis.None? { return None; }
    var signer, pos := ReadField(bytes, 2);
    if signer.None? { return None; }
    var signature;
    signature, pos := ReadField(bytes, pos);
    if signature.None? { return None; }
    var author;
    author, pos := ReadField(bytes, pos);
    if author.None? || !ValidUtf8(author.value) { return None; }
    r := ReadRest(bytes, pos, signer.value, signature.value, vis.value, author.value);
  }
}
