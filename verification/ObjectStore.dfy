/** The object-inspection store: signed, optionally sealed blocks under their content address. */
module ObjectStore {
  import opened Wrappers
  import opened Bytes
  import opened ObjectRecords

  type Blob = seq<byte>

  /** The cryptography the store is built on. */
  datatype Crypto = Crypto(
    hash: Blob -> Blob,
    signer: Blob,
    sign: Blob -> Blob,
    accepts: (Blob, Blob) -> bool,
    seal: (Blob, seq<Blob>, Blob) -> Option<Blob>,
    unseal: (Blob, Blob) -> Option<Blob>,
    publicOf: Blob -> Blob)

  /** Ideal behaviour: no hash collisions, honest signatures verify, and a sealed body opens to its
      plaintext for exactly the holders of a recipient's secret. */
  ghost predicate Ideal(c: Crypto) {
    && (forall a, b :: c.hash(a) == c.hash(b) ==> a == b)
    && (forall m :: c.accepts(m, c.sign(m)))
    && (forall plain, recipients, coins, secret :: c.seal(plain, recipients, coins).Some? ==>
          c.unseal(c.seal(plain, recipients, coins).value, secret) ==
          if c.publicOf(secret) in recipients then Some(plain) else None)
  }

  /** The signing-domain separator, the ASCII bytes of `pillar-cli/object-inspection-tier/object-v1`. */
  const OBJECT_SIG_DOMAIN: Blob := [
    112, 105, 108, 108, 97, 114, 45, 99, 108, 105, 47, 111, 98, 106, 101, 99, 116, 45, 105, 110,
    115, 112, 101, 99, 116, 105, 111, 110, 45, 116, 105, 101, 114, 47, 111, 98, 106, 101, 99, 116,
    45, 118, 49]

  function SigningMaterial(vis: Visibility, author: Utf8, body: Blob): Blob {
    OBJECT_SIG_DOMAIN + [VisToByte(vis)] + author + body
  }

  datatype PutOp = PutOp(visibility: Visibility, payloadHex: string, linksHex: seq<string>, recipientsHex: seq<string>)

  datatype StoreError =
    | BadPayloadHex | BadLinkHex | NoRecipients | BadRecipientHex | SealFailed
    | BadCidHex | NoSuchObject | MalformedBlock

  type Blocks = map<Blob, Blob>

  /** Every hex string decoded in order, or nothing if one is malformed. */
  function DecodeAll(hexes: seq<string>): Option<seq<Blob>> {
    if hexes == [] then Some([])
    else
      match (HexDecode(hexes[0]), DecodeAll(hexes[1..]))
      case (Some(first), Some(rest)) => Some([first] + rest)
      case _ => None
  }

  /** The body and recipient count a put stores; `coins` is the randomness of the sealing. */
  function BodyOf(c: Crypto, op: PutOp, plain: Blob, coins: Blob): Result<(Blob, uint32), StoreError> {
    match op.visibility
    case Public => Ok((plain, 0))
    case Sealed =>
      if op.recipientsHex == [] then Err(NoRecipients)
      else
        match DecodeAll(op.recipientsHex)
        case None => Err(BadRecipientHex)
        case Some(recipients) =>
          match c.seal(plain, recipients, coins)
          case None => Err(SealFailed)
          case Some(sealed) => Ok((sealed, |recipients| % TWO_TO_THE_32))
  }

  /** The record a put authors, or why it is refused. */
  function RecordOf(c: Crypto, author: Utf8, op: PutOp, coins: Blob): Result<Record, StoreError> {
    match HexDecode(op.payloadHex)
    case None => Err(BadPayloadHex)
    case Some(plain) =>
      match DecodeAll(op.linksHex)
      case None => Err(BadLinkHex)
      case Some(links) =>
        match BodyOf(c, op, plain, coins)
        case Err(e) => Err(e)
        case Ok((body, count)) =>
          var sig := c.sign(SigningMaterial(op.visibility, author, body));
          Ok(Record(c.signer, sig, op.visibility, author, body, count, links))
  }

  datatype Put = Put(author: Utf8, op: PutOp, coins: Blob)

  function Step(c: Crypto, s: Blocks, put: Put): (Blocks, Result<string, StoreError>) {
    match RecordOf(c, put.author, put.op, put.coins)
    case Err(e) => (s, Err(e))
    case Ok(record) =>
      var block := Encode(record);
      (s[c.hash(block) := block], Ok(HexEncode(c.hash(block))))
  }

  function Run(c: Crypto, puts: seq<Put>): Blocks {
    if puts == [] then map[] else Step(c, Run(c, puts[..|puts| - 1]), puts[|puts| - 1]).0
  }

  // ---- the read verbs ----

  function Load(s: Blocks, cidHex: string): Result<Record, StoreError> {
    match HexDecode(cidHex)
    case None => Err(BadCidHex)
    case Some(cid) =>
      if cid !in s then Err(NoSuchObject)
      else match Decode(s[cid]) case None => Err(MalformedBlock) case Some(record) => Ok(record)
  }

  /** What `get` shows: the whole body in hex, or the envelope without any of it. */
  datatype View =
    | Body(hex: string)
    | EnvelopeOnly(cidHex: string, author: Utf8, size: nat, recipients: uint32, links: seq<string>)

  function OpenBody(c: Crypto, record: Record, secretHex: Option<string>): Option<Blob> {
    match record.visibility
    case Public => Some(record.body)
    case Sealed =>
      if secretHex.None? || HexDecode(secretHex.value).None? then None
      else c.unseal(record.body, HexDecode(secretHex.value).value)
  }

  function HexLines(links: seq<Blob>): seq<string> {
    if links == [] then [] else [HexEncode(links[0])] + HexLines(links[1..])
  }

  function Get(c: Crypto, s: Blocks, cidHex: string, secretHex: Option<string>): Result<View, StoreError> {
    match Load(s, cidHex)
    case Err(e) => Err(e)
    case Ok(record) =>
      match OpenBody(c, record, secretHex)
      case Some(plain) => Ok(Body(HexEncode(plain)))
      case None => Ok(EnvelopeOnly(cidHex, record.author, |record.body|, record.recipientCount, HexLines(record.links)))
  }

  function Links(s: Blocks, cidHex: string): Result<seq<string>, StoreError> {
    match Load(s, cidHex) case Err(e) => Err(e) case Ok(record) => Ok(HexLines(record.links))
  }

  /** Whether the stored signature is valid, with the signer and author; the body stays sealed. */
  function Verify(c: Crypto, s: Blocks, cidHex: string): Result<(bool, Blob, Utf8), StoreError> {
    match Load(s, cidHex)
    case Err(e) => Err(e)
    case Ok(record) =>
      var material := SigningMaterial(record.visibility, record.author, record.body);
      Ok((c.accepts(material, record.signature), record.signer, record.author))
  }

  // ---- blocks are permanent ----

  /** Every block lies under its own hash. */
  ghost predicate Addressed(c: Crypto, s: Blocks) {
    forall cid :: cid in s ==> c.hash(s[cid]) == cid
  }

  lemma StepKeeps(c: Crypto, s: Blocks, put: Put)
    requires Ideal(c) && Addressed(c, s)
    ensures var t := Step(c, s, put).0;
            Addressed(c, t) && forall cid :: cid in s ==> cid in t && t[cid] == s[cid]
  {
  }

  lemma {:induction false} RunKeeps(c: Crypto, puts: seq<Put>, i: nat)
    requires Ideal(c) && i <= |puts|
    ensures Addressed(c, Run(c, puts))
    ensures forall cid :: cid in Run(c, puts[..i]) ==>
              cid in Run(c, puts) && Run(c, puts)[cid] == Run(c, puts[..i])[cid]
  {
    if i == |puts| {
      assert puts[..i] == puts;
      if i > 0 {
        RunKeeps(c, puts[..i - 1], i - 1);
        StepKeeps(c, Run(c, puts[..i - 1]), puts[i - 1]);
      }
    } else {
      var before := puts[..|puts| - 1];
      RunKeeps(c, before, i);
      assert before[..i] == puts[..i];
      StepKeeps(c, Run(c, before), puts[|puts| - 1]);
    }
  }

  /** The put at `i` authored this record. */
  ghost predicate Authors(c: Crypto, puts: seq<Put>, i: nat, r: Record) {
    i < |puts| && RecordOf(c, puts[i].author, puts[i].op, puts[i].coins) == Ok(r)
  }

  function CidOf(c: Crypto, r: Record): string {
    HexEncode(c.hash(Encode(r)))
  }

  /** A record in range whose encoding the block of `r` starts with. */
  ghost predicate Begins(q: Record, r: Record) {
    Fits(q) && Encode(q) <= Encode(r)
  }

  /** Every put whose record can be authored is stored, whatever its lengths, and its block stays. */
  lemma PutIsKept(c: Crypto, puts: seq<Put>, i: nat, r: Record)
    requires Ideal(c) && Authors(c, puts, i, r)
    ensures Step(c, Run(c, puts[..i]), puts[i]).1 == Ok(CidOf(c, r))
    ensures HexDecode(CidOf(c, r)) == Some(c.hash(Encode(r)))
    ensures c.hash(Encode(r)) in Run(c, puts) && Run(c, puts)[c.hash(Encode(r))] == Encode(r)
  {
    var cid := c.hash(Encode(r));
    assert puts[..i + 1][..i] == puts[..i];
    assert Run(c, puts[..i + 1])[cid] == Encode(r);
    RunKeeps(c, puts, i + 1);
    HexRoundTrip(cid);
  }

  /** What the address of a put loads in every later state: the record in range whose encoding the block starts with,
      and no other. So the authored record comes back exactly when its lengths fit their prefixes; with only the body
      too long, the record comes back with the body cut. */
  lemma PutThenLoad(c: Crypto, puts: seq<Put>, i: nat, r: Record)
    requires Ideal(c) && Authors(c, puts, i, r)
    ensures Step(c, Run(c, puts[..i]), puts[i]).1 == Ok(CidOf(c, r))
    ensures forall q :: Load(Run(c, puts), CidOf(c, r)) == Ok(q) <==> Begins(q, r)
    ensures Load(Run(c, puts), CidOf(c, r)) == Ok(r) <==> Fits(r)
    ensures HeadFits(r) ==> Load(Run(c, puts), CidOf(c, r)) == Ok(r.(body := Cut(r.body)))
    ensures Load(Run(c, puts), CidOf(c, r)).Ok? || Load(Run(c, puts), CidOf(c, r)) == Err(MalformedBlock)
  {
    PutIsKept(c, puts, i, r);
    forall q
      ensures Load(Run(c, puts), CidOf(c, r)) == Ok(q) <==> Begins(q, r)
    {
      DecodeIff(Encode(r), q);
    }
    if HeadFits(r) {
      DecodeCutsTheBody(r);
    }
  }

  /** Whether the presented secret belongs to one of the recipients named by the put. */
  ghost predicate Entitled(c: Crypto, op: PutOp, secretHex: Option<string>) {
    && secretHex.Some? && HexDecode(secretHex.value).Some? && DecodeAll(op.recipientsHex).Some?
    && c.publicOf(HexDecode(secretHex.value).value) in DecodeAll(op.recipientsHex).value
  }

  lemma OpensFor(c: Crypto, put: Put, secretHex: Option<string>)
    requires Ideal(c)
    requires RecordOf(c, put.author, put.op, put.coins).Ok?
    ensures OpenBody(c, RecordOf(c, put.author, put.op, put.coins).value, secretHex) ==
            if put.op.visibility.Public? || Entitled(c, put.op, secretHex) then HexDecode(put.op.payloadHex) else None
  {
  }

  lemma GetOf(c: Crypto, s: Blocks, cidHex: string, secretHex: Option<string>)
    ensures Load(s, cidHex).Ok? ==>
            var plain := OpenBody(c, Load(s, cidHex).value, secretHex);
            if plain.Some? then Get(c, s, cidHex, secretHex) == Ok(Body(HexEncode(plain.value)))
            else Get(c, s, cidHex, secretHex).Ok? && Get(c, s, cidHex, secretHex).value.EnvelopeOnly?
  {
  }

  ghost predicate AllHex(hexes: seq<string>) {
    forall k :: 0 <= k < |hexes| ==> IsHex(hexes[k])
  }

  /** The payload and every link are hex. */
  ghost predicate Readable(op: PutOp) {
    IsHex(op.payloadHex) && AllHex(op.linksHex)
  }

  /** The put names recipients, each in hex. */
  ghost predicate Addressable(op: PutOp) {
    op.visibility.Sealed? && op.recipientsHex != [] && AllHex(op.recipientsHex)
  }

  lemma HexDecodes(hex: string)
    ensures HexDecode(hex).Some? <==> IsHex(hex)
  {
    HexAccepts(hex);
  }

  /** A put is refused for exactly one reason, the first of these that holds: a payload not in hex, a link not in hex, a
      sealed object for nobody, a recipient not in hex, a sealing that fails. Any other put is stored. */
  lemma PutReplies(c: Crypto, s: Blocks, put: Put)
    ensures var r, op := Step(c, s, put).1, put.op;
            && (r == Err(BadPayloadHex) <==> !IsHex(op.payloadHex))
            && (r == Err(BadLinkHex) <==> IsHex(op.payloadHex) && !AllHex(op.linksHex))
            && (r == Err(NoRecipients) <==> Readable(op) && op.visibility.Sealed? && op.recipientsHex == [])
            && (r == Err(BadRecipientHex) <==>
                Readable(op) && op.visibility.Sealed? && op.recipientsHex != [] && !AllHex(op.recipientsHex))
            && (r == Err(SealFailed) <==> Readable(op) && Addressable(op) && SealOf(c, put).None?)
            && (r.Ok? <==> Readable(op) && (op.visibility.Public? || (Addressable(op) && SealOf(c, put).Some?)))
            && (r.Err? ==> Step(c, s, put).0 == s)
  {
    HexDecodes(put.op.payloadHex);
    DecodeAllIff(put.op.linksHex);
    DecodeAllIff(put.op.recipientsHex);
  }

  /** What sealing the payload to the named recipients gives. */
  function SealOf(c: Crypto, put: Put): Option<Blob> {
    var plain, recipients := HexDecode(put.op.payloadHex), DecodeAll(put.op.recipientsHex);
    if plain.None? || recipients.None? then None else c.seal(plain.value, recipients.value, put.coins)
  }

  /** The record a put authors: the payload itself for everyone, or sealed to the recipients with their number, signed
      over visibility, author and body. */
  lemma AuthoredRecord(c: Crypto, puts: seq<Put>, i: nat, r: Record)
    requires Authors(c, puts, i, r)
    ensures var op := puts[i].op;
            && r.signer == c.signer && r.visibility == op.visibility && r.author == puts[i].author
            && r.signature == c.sign(OBJECT_SIG_DOMAIN + [if op.visibility.Public? then 0 else 1] + r.author + r.body)
            && (op.visibility.Public? ==> Some(r.body) == HexDecode(op.payloadHex) && r.recipientCount == 0)
            && (op.visibility.Sealed? ==>
                  Some(r.body) == SealOf(c, puts[i]) && r.recipientCount == |op.recipientsHex| % TWO_TO_THE_32)
            && DecodeAll(op.linksHex) == Some(r.links)
  {
    DecodeAllLength(puts[i].op.recipientsHex);
  }

  lemma {:induction false} DecodeAllLength(hexes: seq<string>)
    ensures DecodeAll(hexes).Some? ==> |DecodeAll(hexes).value| == |hexes|
  {
    if hexes != [] {
      DecodeAllLength(hexes[1..]);
    }
  }

  /** Whoever may not open a sealed object sees its address, author, stored size, number of recipients and links. */
  lemma EnvelopeShows(c: Crypto, puts: seq<Put>, i: nat, r: Record, secretHex: Option<string>)
    requires Ideal(c) && Authors(c, puts, i, r) && Fits(r)
    requires puts[i].op.visibility.Sealed? && !Entitled(c, puts[i].op, secretHex)
    ensures Get(c, Run(c, puts), CidOf(c, r), secretHex) ==
            Ok(EnvelopeOnly(CidOf(c, r), puts[i].author, |r.body|, |puts[i].op.recipientsHex| % TWO_TO_THE_32, HexLines(r.links)))
  {
    PutThenLoad(c, puts, i, r);
    OpensFor(c, puts[i], secretHex);
    AuthoredRecord(c, puts, i, r);
  }

  /** The signed material carries no lengths: two puts sign the same bytes exactly when visibility and the run of author
      and body together are the same. */
  lemma MaterialEqualIff(v: Visibility, a: Utf8, b: Blob, w: Visibility, x: Utf8, y: Blob)
    ensures SigningMaterial(v, a, b) == SigningMaterial(w, x, y) <==> v == w && a + b == x + y
  {
    var m, n := SigningMaterial(v, a, b), SigningMaterial(w, x, y);
    var at := |OBJECT_SIG_DOMAIN|;
    assert m == OBJECT_SIG_DOMAIN + ([VisToByte(v)] + (a + b)) && n == OBJECT_SIG_DOMAIN + ([VisToByte(w)] + (x + y));
    if m == n {
      assert m[at] == VisToByte(v) && n[at] == VisToByte(w);
      assert m[at + 1..] == a + b && n[at + 1..] == x + y;
    }
  }

  /** What a truncated block no longer shows: a signature covers one message only, and no proper beginning of a
      sealed body opens. */
  ghost predicate TamperEvident(c: Crypto) {
    && (forall m, n :: c.accepts(m, c.sign(n)) ==> m == n)
    && (forall plain, recipients, coins, secret, k: nat ::
          (var sealed := c.seal(plain, recipients, coins); sealed.Some? && k < |sealed.value| ==>
             c.unseal(sealed.value[..k], secret) == None))
  }

  /** After any put in range and any further puts, `get` on the returned address yields the payload hex in
      lower case, for a public object to everyone and for a sealed one to exactly the holders of a
      recipient secret; anyone else sees the envelope and nothing of the body. */
  lemma PutThenGet(c: Crypto, puts: seq<Put>, i: nat, r: Record, secretHex: Option<string>)
    requires Ideal(c) && Authors(c, puts, i, r)
    ensures var op := puts[i].op;
            var seen := Get(c, Run(c, puts), CidOf(c, r), secretHex);
            Fits(r) ==>
              if op.visibility.Public? || Entitled(c, op, secretHex) then seen == Ok(Body(LowerHex(op.payloadHex)))
              else seen.Ok? && seen.value.EnvelopeOnly?
  {
    var op := puts[i].op;
    PutThenLoad(c, puts, i, r);
    OpensFor(c, puts[i], secretHex);
    GetOf(c, Run(c, puts), CidOf(c, r), secretHex);
    HexAccepts(op.payloadHex);
    HexCanonical(op.payloadHex);
  }

  lemma HexOfCut(hex: string, body: Blob)
    requires HexDecode(hex) == Some(body)
    ensures HexEncode(Cut(body)) == LowerHex(hex) <==> |body| < TWO_TO_THE_32
  {
    HexAccepts(hex);
    HexCanonical(hex);
    FieldCut(body);
    HexRoundTrip(body);
    HexRoundTrip(Cut(body));
  }

  /** A put of any lengths: when its block begins with the encoding of a record in range, the read verbs show that
      record; otherwise each of them reports a malformed block. */
  lemma ReadsTheLoaded(c: Crypto, puts: seq<Put>, i: nat, r: Record, secretHex: Option<string>)
    requires Ideal(c) && Authors(c, puts, i, r)
    ensures var s, cid := Run(c, puts), CidOf(c, r);
            (exists q :: Begins(q, r)) ==> exists q ::
              && Begins(q, r) && Links(s, cid) == Ok(HexLines(q.links))
              && Verify(c, s, cid) == Ok((c.accepts(SigningMaterial(q.visibility, q.author, q.body), q.signature), q.signer, q.author))
              && (if OpenBody(c, q, secretHex).Some? then Get(c, s, cid, secretHex) == Ok(Body(HexEncode(OpenBody(c, q, secretHex).value)))
                  else Get(c, s, cid, secretHex) == Ok(EnvelopeOnly(cid, q.author, |q.body|, q.recipientCount, HexLines(q.links))))
    ensures var s, cid := Run(c, puts), CidOf(c, r);
            !(exists q :: Begins(q, r)) ==>
              && Get(c, s, cid, secretHex) == Err(MalformedBlock)
              && Links(s, cid) == Err(MalformedBlock) && Verify(c, s, cid) == Err(MalformedBlock)
  {
    PutThenLoad(c, puts, i, r);
    var loaded := Load(Run(c, puts), CidOf(c, r));
    if loaded.Ok? {
      assert Begins(loaded.value, r);
    }
  }

  /** A public payload of any length: `get` shows its beginning, of its length modulo 2^32 bytes, so the whole payload
      exactly when it is shorter than 2^32 bytes. */
  lemma PublicGetIff(c: Crypto, puts: seq<Put>, i: nat, r: Record, secretHex: Option<string>)
    requires Ideal(c) && Authors(c, puts, i, r) && HeadFits(r) && r.visibility.Public?
    ensures HexDecode(puts[i].op.payloadHex) == Some(r.body)
    ensures var seen := Get(c, Run(c, puts), CidOf(c, r), secretHex);
            && seen == Ok(Body(HexEncode(Cut(r.body))))
            && (seen == Ok(Body(LowerHex(puts[i].op.payloadHex))) <==> |r.body| < TWO_TO_THE_32)
  {
    PutThenLoad(c, puts, i, r);
    GetOf(c, Run(c, puts), CidOf(c, r), secretHex);
    HexOfCut(puts[i].op.payloadHex, r.body);
  }

  lemma CutNeverOpens(c: Crypto, puts: seq<Put>, i: nat, r: Record, secretHex: Option<string>)
    requires TamperEvident(c) && Authors(c, puts, i, r) && r.visibility.Sealed? && |r.body| >= TWO_TO_THE_32
    ensures OpenBody(c, r.(body := Cut(r.body)), secretHex) == None
  {
    SealedBody(c, puts, i, r);
  }

  /** A sealed body of 2^32 bytes or more opens for nobody, not even a recipient. */
  lemma SealedGetIff(c: Crypto, puts: seq<Put>, i: nat, r: Record, secretHex: Option<string>)
    requires Ideal(c) && TamperEvident(c) && Authors(c, puts, i, r) && HeadFits(r) && r.visibility.Sealed?
    ensures var seen := Get(c, Run(c, puts), CidOf(c, r), secretHex);
            seen.Ok? && (seen.value.Body? <==> Entitled(c, puts[i].op, secretHex) && |r.body| < TWO_TO_THE_32)
  {
    PutThenLoad(c, puts, i, r);
    GetOf(c, Run(c, puts), CidOf(c, r), secretHex);
    if |r.body| < TWO_TO_THE_32 {
      FieldCut(r.body);
      OpensFor(c, puts[i], secretHex);
      SealedBody(c, puts, i, r);
    } else {
      CutNeverOpens(c, puts, i, r, secretHex);
    }
  }

  lemma SealedBody(c: Crypto, puts: seq<Put>, i: nat, r: Record)
    requires Authors(c, puts, i, r) && r.visibility.Sealed?
    ensures var op := puts[i].op;
            && HexDecode(op.payloadHex).Some? && DecodeAll(op.recipientsHex).Some?
            && c.seal(HexDecode(op.payloadHex).value, DecodeAll(op.recipientsHex).value, puts[i].coins) == Some(r.body)
  {
  }

  lemma ZerosDecode(s: string, bytes: Blob)
    requires |s| == 2 * |bytes|
    requires (forall k :: 0 <= k < |s| ==> s[k] == '0') && (forall k :: 0 <= k < |bytes| ==> bytes[k] == 0)
    ensures HexDecode(s) == Some(bytes)
  {
    HexRoundTrip(bytes);
    ZerosEncode(s, bytes);
  }

  lemma {:induction false} ZerosEncode(s: string, bytes: Blob)
    requires |s| == 2 * |bytes|
    requires (forall k :: 0 <= k < |s| ==> s[k] == '0') && (forall k :: 0 <= k < |bytes| ==> bytes[k] == 0)
    ensures HexEncode(bytes) == s
    decreases |bytes|
  {
    if bytes != [] {
      ZerosEncode(s[2..], bytes[1..]);
      assert s == ['0', '0'] + s[2..];
    }
  }

  /** 2^32 zero bytes put as a public object are stored, and read back as no bytes at all. */
  lemma WholePayloadLost(c: Crypto, author: Utf8, coins: Blob, secretHex: Option<string>)
    requires Ideal(c) && |c.signer| < TWO_TO_THE_32 && |author| < TWO_TO_THE_32
    requires forall m :: |c.sign(m)| < TWO_TO_THE_32
    ensures var zeros := seq(2 * TWO_TO_THE_32, _ => '0');
            var put := Put(author, PutOp(Public, zeros, [], []), coins);
            var stored := Step(c, map[], put).1;
            stored.Ok? && Get(c, Run(c, [put]), stored.value, secretHex) == Ok(Body(""))
  {
    var zeros := seq(2 * TWO_TO_THE_32, _ => '0');
    var bytes: Blob := seq(TWO_TO_THE_32, _ => 0);
    var put := Put(author, PutOp(Public, zeros, [], []), coins);
    ZerosDecode(zeros, bytes);
    var r := RecordOf(c, author, put.op, coins).value;
    assert Authors(c, [put], 0, r);
    assert [put][..0] == [];
    PutThenLoad(c, [put], 0, r);
    PublicGetIff(c, [put], 0, r, secretHex);
    assert Cut(bytes) == [];
  }

  lemma {:induction false} DecodeAllIff(hexes: seq<string>)
    ensures DecodeAll(hexes).Some? <==> forall k :: 0 <= k < |hexes| ==> IsHex(hexes[k])
    ensures DecodeAll(hexes).Some? ==>
              var lines := HexLines(DecodeAll(hexes).value);
              |lines| == |hexes| && forall k :: 0 <= k < |hexes| ==> IsHex(hexes[k]) && lines[k] == LowerHex(hexes[k])
  {
    if hexes != [] {
      HexAccepts(hexes[0]);
      DecodeAllIff(hexes[1..]);
      assert forall k :: 1 <= k < |hexes| ==> hexes[k] == hexes[1..][k - 1];
      if DecodeAll(hexes).Some? {
        HexCanonical(hexes[0]);
        assert DecodeAll(hexes).value[1..] == DecodeAll(hexes[1..]).value;
      }
    }
  }

  /** The links of a stored object come back in order and lower-cased however long its body, in every later state and
      without any secret; its signature verifies when the body is in range, and no longer when it was cut. */
  lemma PutThenInspect(c: Crypto, puts: seq<Put>, i: nat, r: Record)
    requires Ideal(c) && Authors(c, puts, i, r) && HeadFits(r)
    ensures var op := puts[i].op;
            var lines := Links(Run(c, puts), CidOf(c, r));
            && lines.Ok? && |lines.value| == |op.linksHex|
            && forall k :: 0 <= k < |op.linksHex| ==>
                 IsHex(op.linksHex[k]) && lines.value[k] == LowerHex(op.linksHex[k])
    ensures var verdict := Verify(c, Run(c, puts), CidOf(c, r));
            && verdict.Ok? && verdict.value.1 == c.signer && verdict.value.2 == puts[i].author
            && (|r.body| < TWO_TO_THE_32 ==> verdict.value.0)
            && (|r.body| >= TWO_TO_THE_32 && TamperEvident(c) ==> !verdict.value.0)
  {
    PutThenLoad(c, puts, i, r);
    DecodeAllIff(puts[i].op.linksHex);
    FieldCut(r.body);
  }

  // ---- the object that is updated in place ----

  class Store {
    const crypto: Crypto
    var blocks: Blocks

    constructor (crypto: Crypto)
      ensures this.crypto == crypto && blocks == map[]
    {
      this.crypto, blocks := crypto, map[];
    }

    method DecodeHexList(hexes: seq<string>) returns (r: Option<seq<Blob>>)
      ensures r == DecodeAll(hexes)
    {
      var out: seq<Blob> := [];
      assert hexes[0..] == hexes;
      assert DecodeAll(hexes).Some? ==> out + DecodeAll(hexes).value == DecodeAll(hexes).value;
      for i := 0 to |hexes|
        invariant DecodeAll(hexes) ==
                  var rest := DecodeAll(hexes[i..]); if rest.Some? then Some(out + rest.value) else None
      {
        assert hexes[i..][1..] == hexes[i + 1..];
        var blob := DecodeHex(hexes[i]);
        if blob.None? { return None; }
        ghost var rest := DecodeAll(hexes[i + 1..]);
        assert rest.Some? ==> out + ([blob.value] + rest.value) == (out + [blob.value]) + rest.value;
        out := out + [blob.value];
      }
      assert out + [] == out;
      return Some(out);
    }

    method PutObject(author: Utf8, op: PutOp, coins: Blob) returns (r: Result<string, StoreError>)
      modifies this
      ensures (blocks, r) == Step(crypto, old(blocks), Put(author, op, coins))
    {
      var plain := DecodeHex(op.payloadHex);
      if plain.None? { return Err(BadPayloadHex); }
      var links := DecodeHexList(op.linksHex);
      if links.None? { return Err(BadLinkHex); }
      var body, count := plain.value, 0;
      if op.visibility.Sealed? {
        if op.recipientsHex == [] { return Err(NoRecipients); }
        var recipients := DecodeHexList(op.recipientsHex);
        if recipients.None? { return Err(BadRecipientHex); }
        var sealed := crypto.seal(plain.value, recipients.value, coins);
        if sealed.None? { return Err(SealFailed); }
        body, count := sealed.value, |recipients.value| % TWO_TO_THE_32;
      }
      var sig := crypto.sign(SigningMaterial(op.visibility, author, body));
      var block := EncodeRecord(Record(crypto.signer, sig, op.visibility, author, body, count, links.value));
      var cid := crypto.hash(block);
      blocks := blocks[cid := block];
      var cidHex := EncodeHex(cid);
      return Ok(cidHex);
    }

    method GetObject(cidHex: string, secretHex: Option<string>) returns (r: Result<View, StoreError>)
      ensures r == Get(crypto, blocks, cidHex, secretHex)
    {
      var cid := DecodeHex(cidHex);
      if cid.None? { return Err(BadCidHex); }
      if cid.value !in blocks { return Err(NoSuchObject); }
      var record := DecodeRecord(blocks[cid.value]);
      if record.None? { return Err(MalformedBlock); }
      var plain := OpenBody(crypto, record.value, secretHex);
      if plain.Some? {
        var hex := EncodeHex(plain.value);
        return Ok(Body(hex));
      }
      return Ok(EnvelopeOnly(cidHex, record.value.author, |record.value.body|, record.value.recipientCount,
                             HexLines(record.value.links)));
    }
  }
}
