/** The token issuer: credentials, serials, an ideal signature and serial-keyed revocation. */
module Tokens {
  import opened Wrappers
  import opened Bytes
  import opened TokenCodec

  /** An ideal signature scheme: `sign` produces a signature, `accepts` says which signatures the
      verifier would take for a message. That a message was really signed is not its business: the
      issuer's `signed` set decides that, so no forgery verifies. */
  datatype Scheme = Scheme(sign: seq<byte> -> seq<byte>, accepts: (seq<byte>, seq<byte>) -> bool)

  /** An honest signature is accepted. */
  ghost predicate Correct(scheme: Scheme) {
    forall m :: scheme.accepts(m, scheme.sign(m))
  }

  datatype TokenError = BadCredential | NonPositiveTtl | UnknownToken | Expired | Revoked | WrongDomain

  datatype LoginToken = LoginToken(text: string, user: Utf8, domain: Utf8, expiry: uint64)

  datatype State = State(
    credentials: map<Utf8, Utf8>, revoked: set<uint64>, serial: uint64, signed: set<seq<byte>>)

  datatype Op =
    | RegisterUser(user: Utf8, credential: Utf8)
    | ForwardAndMint(user: Utf8, domain: Utf8, presented: Utf8, now: uint64, ttl: uint64)
    | Revoke(token: string)

  datatype Reply = Done | Minted(token: LoginToken) | Refused(error: TokenError)

  /** The payload a token authenticates, if this issuer signed it. */
  function Authenticated(scheme: Scheme, s: State, token: string): Option<Payload> {
    match ParseToken(token)
    case None => None
    case Some((bytes, sig)) =>
      var payload := Decode(bytes);
      if payload.None? || bytes !in s.signed || !scheme.accepts(bytes, sig) then None else payload
  }

  function Verify(scheme: Scheme, s: State, token: string, domain: Utf8, now: uint64): Result<Utf8, TokenError> {
    match Authenticated(scheme, s, token)
    case None => Err(UnknownToken)
    case Some(payload) =>
      if payload.serial in s.revoked then Err(Revoked)
      else if now >= payload.expiry then Err(Expired)
      else if payload.domain != domain then Err(WrongDomain)
      else Ok(payload.user)
  }

  const FRESH := State(map[], {}, 0, {})

  /** 64-bit addition as the source's release build computes it. */
  function WrappingAdd(a: uint64, b: uint64): uint64 {
    if a + b < TWO_TO_THE_64 then a + b else a + b - TWO_TO_THE_64
  }

  /** The payload a mint signs: the next serial and the expiry, both wrapping at 64 bits. */
  function NextPayload(s: State, op: Op): Payload
    requires op.ForwardAndMint?
  {
    Payload(WrappingAdd(s.serial, 1), WrappingAdd(op.now, op.ttl), op.user, op.domain)
  }

  /** The mint refusal, if any: a zero lifetime first, then a credential that does not match. */
  function MintRefusal(s: State, op: Op): Option<TokenError>
    requires op.ForwardAndMint?
  {
    if op.ttl == 0 then Some(NonPositiveTtl)
    else if op.user in s.credentials && s.credentials[op.user] == op.presented then None
    else Some(BadCredential)
  }

  function Step(scheme: Scheme, s: State, op: Op): (State, Reply) {
    match op
    case RegisterUser(user, credential) => (s.(credentials := s.credentials[user := credential]), Done)
    case ForwardAndMint(user, domain, _, _, _) =>
      (match MintRefusal(s, op)
       case Some(e) => (s, Refused(e))
       case None =>
         var payload := NextPayload(s, op);
         var bytes := Encode(payload);
         (s.(serial := payload.serial, signed := s.signed + {bytes}),
          Minted(LoginToken(TokenText(bytes, scheme.sign(bytes)), user, domain, payload.expiry))))
    case Revoke(token) =>
      var payload := Authenticated(scheme, s, token);
      (if payload.Some? then s.(revoked := s.revoked + {payload.value.serial}) else s, Done)
  }

  function Run(scheme: Scheme, ops: seq<Op>): State {
    if ops == [] then FRESH else Step(scheme, Run(scheme, ops[..|ops| - 1]), ops[|ops| - 1]).0
  }

  function At(scheme: Scheme, ops: seq<Op>, i: nat): State
    requires i <= |ops|
  {
    Run(scheme, ops[..i])
  }

  // ---- reading the state off the run ----

  /** Step `i` minted a token. */
  ghost predicate Mints(scheme: Scheme, ops: seq<Op>, i: nat) {
    i < |ops| && ops[i].ForwardAndMint? && MintRefusal(At(scheme, ops, i), ops[i]).None?
  }

  ghost function MintedPayload(scheme: Scheme, ops: seq<Op>, i: nat): Payload
    requires Mints(scheme, ops, i)
  {
    NextPayload(At(scheme, ops, i), ops[i])
  }

  lemma StepFacts(scheme: Scheme, s: State, op: Op)
    ensures var t := Step(scheme, s, op).0;
            if op.ForwardAndMint? && MintRefusal(s, op).None? then
              t.signed == s.signed + {Encode(NextPayload(s, op))} && t.serial == NextPayload(s, op).serial
            else t.signed == s.signed && t.serial == s.serial
    ensures var t := Step(scheme, s, op).0;
            if op.Revoke? && Authenticated(scheme, s, op.token).Some? then
              t.revoked == s.revoked + {Authenticated(scheme, s, op.token).value.serial}
            else t.revoked == s.revoked
  {
  }

  /** Some step minted a payload encoding to `bytes`. */
  ghost predicate BytesMinted(scheme: Scheme, ops: seq<Op>, bytes: seq<byte>) {
    exists i: nat :: Mints(scheme, ops, i) && bytes == Encode(MintedPayload(scheme, ops, i))
  }

  lemma BytesMintedGrows(scheme: Scheme, ops: seq<Op>, bytes: seq<byte>)
    requires ops != []
    ensures BytesMinted(scheme, ops, bytes) <==>
            || BytesMinted(scheme, ops[..|ops| - 1], bytes)
            || (Mints(scheme, ops, |ops| - 1) && bytes == Encode(MintedPayload(scheme, ops, |ops| - 1)))
  {
    var before := ops[..|ops| - 1];
    forall i: nat | i < |before|
      ensures Mints(scheme, before, i) <==> Mints(scheme, ops, i)
      ensures Mints(scheme, ops, i) ==> MintedPayload(scheme, before, i) == MintedPayload(scheme, ops, i)
    {
      assert before[..i] == ops[..i];
    }
    if BytesMinted(scheme, before, bytes) {
      var i: nat :| Mints(scheme, before, i) && bytes == Encode(MintedPayload(scheme, before, i));
      assert Mints(scheme, ops, i);
    }
  }

  /** The signed messages are exactly the encodings of the minted payloads. */
  lemma {:induction false} SignedIffMinted(scheme: Scheme, ops: seq<Op>, bytes: seq<byte>)
    ensures bytes in Run(scheme, ops).signed <==> BytesMinted(scheme, ops, bytes)
  {
    if ops != [] {
      var before := ops[..|ops| - 1];
      SignedIffMinted(scheme, before, bytes);
      BytesMintedGrows(scheme, ops, bytes);
      StepFacts(scheme, Run(scheme, before), ops[|ops| - 1]);
    }
  }

  ghost predicate RevokesAt(scheme: Scheme, ops: seq<Op>, j: nat, serial: uint64) {
    && j < |ops| && ops[j].Revoke?
    && Authenticated(scheme, At(scheme, ops, j), ops[j].token).Some?
    && Authenticated(scheme, At(scheme, ops, j), ops[j].token).value.serial == serial
  }

  /** Some step revoked a token text that authenticated, then, a payload with this serial. */
  ghost predicate SerialRevoked(scheme: Scheme, ops: seq<Op>, serial: uint64) {
    exists j: nat :: RevokesAt(scheme, ops, j, serial)
  }

  lemma SerialRevokedGrows(scheme: Scheme, ops: seq<Op>, serial: uint64)
    requires ops != []
    ensures SerialRevoked(scheme, ops, serial) <==>
            SerialRevoked(scheme, ops[..|ops| - 1], serial) || RevokesAt(scheme, ops, |ops| - 1, serial)
  {
    var before := ops[..|ops| - 1];
    forall j: nat | j < |before|
      ensures RevokesAt(scheme, before, j, serial) <==> RevokesAt(scheme, ops, j, serial)
    {
      assert before[..j] == ops[..j];
    }
  }

  lemma {:induction false} RevokedIff(scheme: Scheme, ops: seq<Op>, serial: uint64)
    ensures serial in Run(scheme, ops).revoked <==> SerialRevoked(scheme, ops, serial)
  {
    if ops != [] {
      var before := ops[..|ops| - 1];
      RevokedIff(scheme, before, serial);
      SerialRevokedGrows(scheme, ops, serial);
      StepFacts(scheme, Run(scheme, before), ops[|ops| - 1]);
    }
  }

  // ---- what verification accepts ----

  /** The token text carries exactly this payload, under a signature the verifier takes for it. */
  ghost predicate Carries(scheme: Scheme, token: string, p: Payload) {
    && ParseToken(token).Some? && ParseToken(token).value.0 == Encode(p)
    && scheme.accepts(Encode(p), ParseToken(token).value.1)
  }

  /** A token authenticates a payload exactly when that payload was minted in this run, fits the
      wire form, and is carried by the text. */
  lemma AuthenticatedIff(scheme: Scheme, ops: seq<Op>, token: string, p: Payload)
    ensures Authenticated(scheme, Run(scheme, ops), token) == Some(p) <==>
            && Fits(p) && Carries(scheme, token, p)
            && exists i: nat :: Mints(scheme, ops, i) && MintedPayload(scheme, ops, i) == p
  {
    DecodeIff(Encode(p), p);
    SignedIffMinted(scheme, ops, Encode(p));
    if ParseToken(token).Some? {
      DecodeIff(ParseToken(token).value.0, p);
    }
    if Authenticated(scheme, Run(scheme, ops), token) == Some(p) {
      var i: nat :| Mints(scheme, ops, i) && Encode(p) == Encode(MintedPayload(scheme, ops, i));
      DecodeOfEncode(MintedPayload(scheme, ops, i));
      assert MintedPayload(scheme, ops, i) == p;
    }
  }

  /** Step `i` minted what the text carries: for this user and domain, unexpired and never revoked. */
  ghost predicate Entitles(scheme: Scheme, ops: seq<Op>, i: nat, token: string, domain: Utf8, now: uint64, user: Utf8) {
    && Mints(scheme, ops, i)
    && var p := MintedPayload(scheme, ops, i);
       && Fits(p) && Carries(scheme, token, p)
       && p.user == user && p.domain == domain && now < p.expiry
       && !SerialRevoked(scheme, ops, p.serial)
  }

  lemma EntitledVerifies(scheme: Scheme, ops: seq<Op>, i: nat, token: string, domain: Utf8, now: uint64, user: Utf8)
    requires Entitles(scheme, ops, i, token, domain, now, user)
    ensures Verify(scheme, Run(scheme, ops), token, domain, now) == Ok(user)
  {
    AuthenticatedIff(scheme, ops, token, MintedPayload(scheme, ops, i));
    RevokedIff(scheme, ops, MintedPayload(scheme, ops, i).serial);
  }

  lemma MintOf(scheme: Scheme, ops: seq<Op>, token: string, p: Payload) returns (i: nat)
    requires Authenticated(scheme, Run(scheme, ops), token) == Some(p)
    ensures Mints(scheme, ops, i) && MintedPayload(scheme, ops, i) == p && Fits(p) && Carries(scheme, token, p)
  {
    AuthenticatedIff(scheme, ops, token, p);
    i :| Mints(scheme, ops, i) && MintedPayload(scheme, ops, i) == p;
  }

  lemma VerifiedIsEntitled(scheme: Scheme, ops: seq<Op>, token: string, domain: Utf8, now: uint64, user: Utf8)
    returns (i: nat)
    requires Verify(scheme, Run(scheme, ops), token, domain, now) == Ok(user)
    ensures Entitles(scheme, ops, i, token, domain, now, user)
  {
    var p := Authenticated(scheme, Run(scheme, ops), token).value;
    i := MintOf(scheme, ops, token, p);
    RevokedIff(scheme, ops, p.serial);
  }

  /** Verification returns `user` exactly for the texts carrying a payload minted earlier in the run
      for that user and domain, not yet expired, whose serial no text was ever revoked under. */
  lemma VerifyIff(scheme: Scheme, ops: seq<Op>, token: string, domain: Utf8, now: uint64, user: Utf8)
    ensures Verify(scheme, Run(scheme, ops), token, domain, now) == Ok(user) <==>
            exists i: nat :: Entitles(scheme, ops, i, token, domain, now, user)
  {
    if Verify(scheme, Run(scheme, ops), token, domain, now) == Ok(user) {
      var i := VerifiedIsEntitled(scheme, ops, token, domain, now, user);
    }
    if i: nat :| Entitles(scheme, ops, i, token, domain, now, user) {
      EntitledVerifies(scheme, ops, i, token, domain, now, user);
    }
  }

  /** The text a mint hands out carries the minted payload. */
  lemma MintedTextCarries(scheme: Scheme, ops: seq<Op>, i: nat)
    requires Correct(scheme) && Mints(scheme, ops, i)
    ensures Step(scheme, At(scheme, ops, i), ops[i]).1.Minted?
    ensures var token, p := Step(scheme, At(scheme, ops, i), ops[i]).1.token, MintedPayload(scheme, ops, i);
            && Carries(scheme, token.text, p)
            && token.user == p.user == ops[i].user && token.domain == p.domain == ops[i].domain
            && token.expiry == p.expiry
  {
    var bytes := Encode(MintedPayload(scheme, ops, i));
    TextRoundTrip(bytes, scheme.sign(bytes));
  }

  // ---- revoking one token leaves the others alone ----

  lemma VerdictTurnsOnSerial(
    scheme: Scheme, s: State, t: State, serial: uint64, token: string, domain: Utf8, now: uint64)
    requires t.signed == s.signed && t.revoked == s.revoked + {serial}
    ensures Verify(scheme, t, token, domain, now) != Verify(scheme, s, token, domain, now) ==>
              Authenticated(scheme, s, token).Some? && Authenticated(scheme, s, token).value.serial == serial
  {
    assert Authenticated(scheme, t, token) == Authenticated(scheme, s, token);
  }

  /** A revocation changes the verdict on a text only if both authenticate the same serial. */
  lemma RevocationIsolated(scheme: Scheme, s: State, revoked: string, token: string, domain: Utf8, now: uint64)
    ensures Verify(scheme, Step(scheme, s, Revoke(revoked)).0, token, domain, now) != Verify(scheme, s, token, domain, now) ==>
              && Authenticated(scheme, s, revoked).Some? && Authenticated(scheme, s, token).Some?
              && Authenticated(scheme, s, revoked).value.serial == Authenticated(scheme, s, token).value.serial
  {
    var t, payload := Step(scheme, s, Revoke(revoked)).0, Authenticated(scheme, s, revoked);
    if payload.Some? {
      VerdictTurnsOnSerial(scheme, s, t, payload.value.serial, token, domain, now);
    }
  }

  /** How many tokens the first `i` steps minted. */
  ghost function MintCount(scheme: Scheme, ops: seq<Op>, i: nat): nat
    requires i <= |ops|
  {
    if i == 0 then 0 else MintCount(scheme, ops, i - 1) + (if Mints(scheme, ops, i - 1) then 1 else 0)
  }

  /** The counter after n increments. */
  function Wrapped(n: nat): uint64 {
    if n == 0 then 0 else WrappingAdd(Wrapped(n - 1), 1)
  }

  lemma {:induction false} WrappedIsMod(n: nat)
    ensures Wrapped(n) == n % TWO_TO_THE_64
  {
    if n > 0 {
      WrappedIsMod(n - 1);
    }
  }

  lemma ModEqual(a: nat, b: nat)
    requires a <= b
    ensures a % TWO_TO_THE_64 == b % TWO_TO_THE_64 <==> (b - a) % TWO_TO_THE_64 == 0
    ensures 0 < b - a < TWO_TO_THE_64 ==> (b - a) % TWO_TO_THE_64 != 0
  {
  }

  ghost predicate SeparatedByWraps(n: nat, m: nat) {
    exists k: nat :: m == n + k * TWO_TO_THE_64
  }

  lemma WrapRepeats(n: nat, m: nat, gap: nat)
    requires n + 1 <= m <= n + gap
    ensures Wrapped(n + 1) == Wrapped(m + 1) <==> SeparatedByWraps(n, m)
    ensures gap < TWO_TO_THE_64 ==> Wrapped(n + 1) != Wrapped(m + 1)
  {
    WrappedIsMod(n + 1);
    WrappedIsMod(m + 1);
    ModEqual(n + 1, m + 1);
    assert (m + 1) - (n + 1) == m - n;
    if (m - n) % TWO_TO_THE_64 == 0 {
      assert m == n + ((m - n) / TWO_TO_THE_64) * TWO_TO_THE_64;
    }
  }

  lemma MintStep(scheme: Scheme, ops: seq<Op>, i: nat)
    requires i < |ops|
    ensures At(scheme, ops, i + 1).serial ==
            if Mints(scheme, ops, i) then WrappingAdd(At(scheme, ops, i).serial, 1) else At(scheme, ops, i).serial
  {
    assert ops[..i + 1][..i] == ops[..i];
    StepFacts(scheme, At(scheme, ops, i), ops[i]);
  }

  lemma {:induction false} SerialIsMintCount(scheme: Scheme, ops: seq<Op>, i: nat)
    requires i <= |ops|
    ensures At(scheme, ops, i).serial == Wrapped(MintCount(scheme, ops, i))
  {
    if i > 0 {
      SerialIsMintCount(scheme, ops, i - 1);
      MintStep(scheme, ops, i - 1);
    }
  }

  lemma SerialOf(scheme: Scheme, ops: seq<Op>, i: nat)
    requires Mints(scheme, ops, i)
    ensures MintedPayload(scheme, ops, i).serial == Wrapped(MintCount(scheme, ops, i) + 1)
  {
    SerialIsMintCount(scheme, ops, i);
  }

  lemma {:induction false} MintCountGrows(scheme: Scheme, ops: seq<Op>, i: nat, j: nat)
    requires i <= j <= |ops|
    ensures MintCount(scheme, ops, i) <= MintCount(scheme, ops, j) <= MintCount(scheme, ops, i) + (j - i)
    decreases j - i
  {
    if i < j {
      MintCountGrows(scheme, ops, i, j - 1);
    }
  }

  lemma MintCounted(scheme: Scheme, ops: seq<Op>, i: nat)
    requires Mints(scheme, ops, i)
    ensures i < |ops| && MintCount(scheme, ops, i + 1) == MintCount(scheme, ops, i) + 1
  {
  }

  lemma MintsApart(scheme: Scheme, ops: seq<Op>, i: nat, j: nat)
    requires i < j <= |ops| && MintCount(scheme, ops, i + 1) == MintCount(scheme, ops, i) + 1
    ensures MintCount(scheme, ops, i) + 1 <= MintCount(scheme, ops, j) <= MintCount(scheme, ops, i) + (j - i)
  {
    MintCountGrows(scheme, ops, i + 1, j);
  }

  /** Two mints share a serial exactly when a multiple of 2^64 mints separates them, so within 2^64
      steps every serial is fresh. */
  lemma SerialsRepeatIff(scheme: Scheme, ops: seq<Op>, i: nat, j: nat)
    requires i < j && Mints(scheme, ops, i) && Mints(scheme, ops, j)
    ensures MintedPayload(scheme, ops, i).serial == MintedPayload(scheme, ops, j).serial <==>
            SeparatedByWraps(MintCount(scheme, ops, i), MintCount(scheme, ops, j))
    ensures j - i < TWO_TO_THE_64 ==>
              MintedPayload(scheme, ops, i).serial != MintedPayload(scheme, ops, j).serial
  {
    SerialOf(scheme, ops, i);
    SerialOf(scheme, ops, j);
    MintCounted(scheme, ops, i);
    MintCounted(scheme, ops, j);
    MintsApart(scheme, ops, i, j);
    WrapRepeats(MintCount(scheme, ops, i), MintCount(scheme, ops, j), j - i);
  }

  /** A text authenticates at most the payload it carries. */
  lemma AuthenticatesWhatItCarries(scheme: Scheme, s: State, token: string, p: Payload)
    requires Carries(scheme, token, p)
    ensures Authenticated(scheme, s, token).None? || Authenticated(scheme, s, token) == Some(p)
  {
    DecodeOfEncode(p);
  }

  /** Two mints carry one serial: they are one, or a multiple of 2^64 mints lies between them. */
  ghost predicate SameSerial(scheme: Scheme, ops: seq<Op>, i: nat, j: nat)
    requires i <= |ops| && j <= |ops|
  {
    var n, m := MintCount(scheme, ops, i), MintCount(scheme, ops, j);
    i == j || (i < j && SeparatedByWraps(n, m)) || (j < i && SeparatedByWraps(m, n))
  }

  lemma SameSerialIff(scheme: Scheme, ops: seq<Op>, i: nat, j: nat)
    requires Mints(scheme, ops, i) && Mints(scheme, ops, j)
    ensures MintedPayload(scheme, ops, i).serial == MintedPayload(scheme, ops, j).serial <==> SameSerial(scheme, ops, i, j)
  {
    if i < j {
      SerialsRepeatIff(scheme, ops, i, j);
    } else if j < i {
      SerialsRepeatIff(scheme, ops, j, i);
    }
  }

  /** A text that carries a minted payload in range authenticates it. */
  lemma CarrierAuthenticates(scheme: Scheme, ops: seq<Op>, i: nat, token: string)
    requires Mints(scheme, ops, i) && Carries(scheme, token, MintedPayload(scheme, ops, i))
    requires Fits(MintedPayload(scheme, ops, i))
    ensures Authenticated(scheme, Run(scheme, ops), token) == Some(MintedPayload(scheme, ops, i))
  {
    AuthenticatedIff(scheme, ops, token, MintedPayload(scheme, ops, i));
  }

  lemma VerdictAfterRevoking(scheme: Scheme, s: State, p: Payload, q: Payload, revoked: string, other: string, domain: Utf8, now: uint64)
    requires Authenticated(scheme, s, revoked) == Some(p) && Authenticated(scheme, s, other) == Some(q)
    ensures Verify(scheme, Step(scheme, s, Revoke(revoked)).0, other, domain, now) != Verify(scheme, s, other, domain, now) <==>
            p.serial == q.serial && q.serial !in s.revoked
  {
    var t := Step(scheme, s, Revoke(revoked)).0;
    StepFacts(scheme, s, Revoke(revoked));
    SameSigned(scheme, s, t, other);
    VerdictOn(scheme, s, other, q, domain, now);
    VerdictOn(scheme, t, other, q, domain, now);
  }

  lemma SameSigned(scheme: Scheme, s: State, t: State, token: string)
    requires t.signed == s.signed
    ensures Authenticated(scheme, t, token) == Authenticated(scheme, s, token)
  {
  }

  /** Revoking a minted token leaves the verdict on every token of another serial. A token of the same serial loses its
      verdict exactly when that serial was not revoked before. */
  lemma OtherTokensUnaffected(
    scheme: Scheme, ops: seq<Op>, i: nat, j: nat, revoked: string, other: string, domain: Utf8, now: uint64)
    requires Mints(scheme, ops, i) && Mints(scheme, ops, j)
    requires Carries(scheme, revoked, MintedPayload(scheme, ops, i)) && Carries(scheme, other, MintedPayload(scheme, ops, j))
    ensures var s := Run(scheme, ops);
            var before, after := Verify(scheme, s, other, domain, now), Verify(scheme, Step(scheme, s, Revoke(revoked)).0, other, domain, now);
            && (!SameSerial(scheme, ops, i, j) ==> after == before)
            && (Fits(MintedPayload(scheme, ops, i)) && Fits(MintedPayload(scheme, ops, j)) ==>
                  (after != before <==> SameSerial(scheme, ops, i, j) && !SerialRevoked(scheme, ops, MintedPayload(scheme, ops, j).serial)))
  {
    var s, p, q := Run(scheme, ops), MintedPayload(scheme, ops, i), MintedPayload(scheme, ops, j);
    RevocationIsolated(scheme, s, revoked, other, domain, now);
    AuthenticatesWhatItCarries(scheme, s, revoked, p);
    AuthenticatesWhatItCarries(scheme, s, other, q);
    SameSerialIff(scheme, ops, i, j);
    if Fits(p) && Fits(q) {
      CarrierAuthenticates(scheme, ops, i, revoked);
      CarrierAuthenticates(scheme, ops, j, other);
      VerdictAfterRevoking(scheme, s, p, q, revoked, other, domain, now);
      RevokedIff(scheme, ops, q.serial);
    }
  }

  // ---- minting and verifying read off the operations ----

  predicate Registers(op: Op, user: Utf8) {
    op.RegisterUser? && op.user == user
  }

  /** Step `r` is the last to register the user, with this credential. */
  ghost predicate RegisteredAt(ops: seq<Op>, r: nat, user: Utf8, credential: Utf8) {
    && r < |ops| && ops[r] == RegisterUser(user, credential)
    && forall j :: r < j < |ops| ==> !Registers(ops[j], user)
  }

  /** The presented credential is the one last registered for the user. */
  ghost predicate Vouched(ops: seq<Op>, user: Utf8, presented: Utf8) {
    exists r: nat :: RegisteredAt(ops, r, user, presented)
  }

  lemma VouchedGrows(ops: seq<Op>, user: Utf8, presented: Utf8)
    requires ops != []
    ensures var last := ops[|ops| - 1];
            Vouched(ops, user, presented) <==>
            if Registers(last, user) then last.credential == presented else Vouched(ops[..|ops| - 1], user, presented)
  {
    var n := |ops| - 1;
    var before := ops[..n];
    if Registers(ops[n], user) {
      if ops[n].credential == presented {
        assert RegisteredAt(ops, n, user, presented);
      }
    } else {
      forall r: nat
        ensures RegisteredAt(ops, r, user, presented) <==> RegisteredAt(before, r, user, presented)
      {
        if RegisteredAt(ops, r, user, presented) {
          assert before[r] == ops[r];
        }
      }
    }
  }

  lemma CredentialStep(scheme: Scheme, s: State, op: Op)
    ensures Step(scheme, s, op).0.credentials == if op.RegisterUser? then s.credentials[op.user := op.credential] else s.credentials
  {
  }

  lemma {:induction false} CredentialIff(scheme: Scheme, ops: seq<Op>, user: Utf8, presented: Utf8)
    ensures var known := Run(scheme, ops).credentials;
            user in known && known[user] == presented <==> Vouched(ops, user, presented)
  {
    if ops != [] {
      CredentialIff(scheme, ops[..|ops| - 1], user, presented);
      CredentialStep(scheme, Run(scheme, ops[..|ops| - 1]), ops[|ops| - 1]);
      VouchedGrows(ops, user, presented);
    }
  }

  /** Step `i` asks for a token with a positive lifetime and the user's credential. */
  ghost predicate Earns(ops: seq<Op>, i: nat) {
    i < |ops| && ops[i].ForwardAndMint? && ops[i].ttl > 0 && Vouched(ops[..i], ops[i].user, ops[i].presented)
  }

  ghost function Earnings(ops: seq<Op>): nat {
    if ops == [] then 0 else Earnings(ops[..|ops| - 1]) + if Earns(ops, |ops| - 1) then 1 else 0
  }

  /** What such a step signs: the number of tokens so far, the end of the lifetime, the user and the domain asked for. */
  ghost function EarnedPayload(ops: seq<Op>, i: nat): Payload
    requires Earns(ops, i)
  {
    Payload(Wrapped(Earnings(ops[..i]) + 1), WrappingAdd(ops[i].now, ops[i].ttl), ops[i].user, ops[i].domain)
  }

  /** The serial is that number and the expiry the time of the request plus the lifetime asked for, both modulo 2^64. */
  lemma EarnedInNumbers(ops: seq<Op>, i: nat)
    requires Earns(ops, i)
    ensures EarnedPayload(ops, i).serial == (Earnings(ops[..i]) + 1) % TWO_TO_THE_64
    ensures EarnedPayload(ops, i).expiry == (ops[i].now + ops[i].ttl) % TWO_TO_THE_64
    ensures EarnedPayload(ops, i).user == ops[i].user && EarnedPayload(ops, i).domain == ops[i].domain
  {
    WrappedIsMod(Earnings(ops[..i]) + 1);
    WrapOfSum(ops[i].now, ops[i].ttl);
  }

  lemma WrapOfSum(a: uint64, b: uint64)
    ensures WrappingAdd(a, b) == (a + b) % TWO_TO_THE_64
  {
  }

  lemma MintsIffEarns(scheme: Scheme, ops: seq<Op>, i: nat)
    ensures Mints(scheme, ops, i) <==> Earns(ops, i)
  {
    if i < |ops| && ops[i].ForwardAndMint? {
      CredentialIff(scheme, ops[..i], ops[i].user, ops[i].presented);
    }
  }

  lemma {:induction false} MintCountIsEarnings(scheme: Scheme, ops: seq<Op>, i: nat)
    requires i <= |ops|
    ensures MintCount(scheme, ops, i) == Earnings(ops[..i])
  {
    if i > 0 {
      MintCountIsEarnings(scheme, ops, i - 1);
      assert ops[..i][..i - 1] == ops[..i - 1];
      MintsIffEarns(scheme, ops, i - 1);
    }
  }

  lemma MintedIsEarned(scheme: Scheme, ops: seq<Op>, i: nat)
    requires Earns(ops, i)
    ensures Mints(scheme, ops, i) && MintedPayload(scheme, ops, i) == EarnedPayload(ops, i)
  {
    MintsIffEarns(scheme, ops, i);
    SerialOf(scheme, ops, i);
    MintCountIsEarnings(scheme, ops, i);
  }

  lemma MintStepReplies(scheme: Scheme, s: State, op: Op)
    requires op.ForwardAndMint?
    ensures var r, refusal := Step(scheme, s, op).1, MintRefusal(s, op);
            if refusal.Some? then r == Refused(refusal.value)
            else
              var p := NextPayload(s, op);
              r == Minted(LoginToken(TokenText(Encode(p), scheme.sign(Encode(p))), op.user, op.domain, p.expiry))
  {
  }

  /** A mint is refused for a zero lifetime, else for a credential other than the one last registered; otherwise it
      hands out a token. */
  lemma MintReplies(scheme: Scheme, ops: seq<Op>, op: Op)
    requires op.ForwardAndMint?
    ensures var r := Step(scheme, Run(scheme, ops), op).1;
            && (r == Refused(NonPositiveTtl) <==> op.ttl == 0)
            && (r == Refused(BadCredential) <==> op.ttl > 0 && !Vouched(ops, op.user, op.presented))
            && (r.Minted? <==> op.ttl > 0 && Vouched(ops, op.user, op.presented))
  {
    CredentialIff(scheme, ops, op.user, op.presented);
    MintStepReplies(scheme, Run(scheme, ops), op);
  }

  /** The token is the signed payload of the next number, for the user and domain asked for, ending with the lifetime
      asked for. */
  lemma MintHandsOut(scheme: Scheme, ops: seq<Op>, op: Op)
    requires op.ForwardAndMint? && op.ttl > 0 && Vouched(ops, op.user, op.presented)
    ensures var p := Payload((Earnings(ops) + 1) % TWO_TO_THE_64, (op.now + op.ttl) % TWO_TO_THE_64, op.user, op.domain);
            Step(scheme, Run(scheme, ops), op).1 ==
            Minted(LoginToken(TokenText(Encode(p), scheme.sign(Encode(p))), op.user, op.domain, p.expiry))
  {
    CredentialIff(scheme, ops, op.user, op.presented);
    MintStepReplies(scheme, Run(scheme, ops), op);
    var all := ops + [op];
    assert all[..|ops|] == ops;
    assert Earns(all, |ops|);
    MintedIsEarned(scheme, all, |ops|);
    EarnedInNumbers(all, |ops|);
  }

  /** The text carries what step `i` earned, within the range of the wire form. */
  ghost predicate Presents(scheme: Scheme, ops: seq<Op>, i: nat, token: string) {
    Earns(ops, i) && Fits(EarnedPayload(ops, i)) && Carries(scheme, token, EarnedPayload(ops, i))
  }

  lemma PresentsIff(scheme: Scheme, ops: seq<Op>, token: string, p: Payload)
    ensures Authenticated(scheme, Run(scheme, ops), token) == Some(p) <==>
            exists i: nat :: Presents(scheme, ops, i, token) && EarnedPayload(ops, i) == p
  {
    AuthenticatedIff(scheme, ops, token, p);
    if Authenticated(scheme, Run(scheme, ops), token) == Some(p) {
      var i: nat :| Mints(scheme, ops, i) && MintedPayload(scheme, ops, i) == p;
      MintsIffEarns(scheme, ops, i);
      MintedIsEarned(scheme, ops, i);
      assert Presents(scheme, ops, i, token);
    }
    if i: nat :| Presents(scheme, ops, i, token) && EarnedPayload(ops, i) == p {
      MintedIsEarned(scheme, ops, i);
      assert Mints(scheme, ops, i) && MintedPayload(scheme, ops, i) == p;
    }
  }

  /** Step `j` revokes a text that carries a payload earned before it, under this serial. */
  ghost predicate WithdrawnAt(scheme: Scheme, ops: seq<Op>, j: nat, serial: uint64) {
    && j < |ops| && ops[j].Revoke?
    && exists i: nat :: Presents(scheme, ops[..j], i, ops[j].token) && EarnedPayload(ops[..j], i).serial == serial
  }

  ghost predicate Withdrawn(scheme: Scheme, ops: seq<Op>, serial: uint64) {
    exists j: nat :: WithdrawnAt(scheme, ops, j, serial)
  }

  lemma WithdrawnIff(scheme: Scheme, ops: seq<Op>, serial: uint64)
    ensures serial in Run(scheme, ops).revoked <==> Withdrawn(scheme, ops, serial)
  {
    RevokedIff(scheme, ops, serial);
    forall j: nat
      ensures RevokesAt(scheme, ops, j, serial) <==> WithdrawnAt(scheme, ops, j, serial)
    {
      if j < |ops| && ops[j].Revoke? {
        WithdrawnStep(scheme, ops[..j], ops[j].token, serial);
      }
    }
  }

  lemma WithdrawnStep(scheme: Scheme, ops: seq<Op>, token: string, serial: uint64)
    ensures (exists i: nat :: Presents(scheme, ops, i, token) && EarnedPayload(ops, i).serial == serial) <==>
            Authenticated(scheme, Run(scheme, ops), token).Some? &&
            Authenticated(scheme, Run(scheme, ops), token).value.serial == serial
  {
    var payload := Authenticated(scheme, Run(scheme, ops), token);
    if payload.Some? {
      PresentsIff(scheme, ops, token, payload.value);
    }
    if i: nat :| Presents(scheme, ops, i, token) && EarnedPayload(ops, i).serial == serial {
      PresentsIff(scheme, ops, token, EarnedPayload(ops, i));
    }
  }

  /** The verdict a request earns its texts: revoked, then expired, then of another domain, and else its user. */
  ghost function Deserved(scheme: Scheme, ops: seq<Op>, i: nat, domain: Utf8, now: uint64): Result<Utf8, TokenError>
    requires Earns(ops, i)
  {
    if Withdrawn(scheme, ops, EarnedPayload(ops, i).serial) then Err(TokenError.Revoked)
    else if EarnedPayload(ops, i).expiry <= now then Err(Expired)
    else if ops[i].domain != domain then Err(WrongDomain)
    else Ok(ops[i].user)
  }

  lemma VerdictOn(scheme: Scheme, s: State, token: string, p: Payload, domain: Utf8, now: uint64)
    requires Authenticated(scheme, s, token) == Some(p)
    ensures Verify(scheme, s, token, domain, now) ==
            if p.serial in s.revoked then Err(TokenError.Revoked)
            else if p.expiry <= now then Err(Expired)
            else if p.domain != domain then Err(WrongDomain)
            else Ok(p.user)
  {
  }

  /** A text that carries what a request earned is judged by that request. */
  lemma VerdictIsDeserved(scheme: Scheme, ops: seq<Op>, i: nat, token: string, domain: Utf8, now: uint64)
    requires Presents(scheme, ops, i, token)
    ensures Verify(scheme, Run(scheme, ops), token, domain, now) == Deserved(scheme, ops, i, domain, now)
  {
    var p := EarnedPayload(ops, i);
    PresentsIff(scheme, ops, token, p);
    WithdrawnIff(scheme, ops, p.serial);
    VerdictOn(scheme, Run(scheme, ops), token, p, domain, now);
  }

  /** A text is unknown exactly when it carries nothing earned in the run. */
  lemma UnknownIff(scheme: Scheme, ops: seq<Op>, token: string, domain: Utf8, now: uint64)
    ensures Verify(scheme, Run(scheme, ops), token, domain, now) == Err(UnknownToken) <==>
            !exists i: nat :: Presents(scheme, ops, i, token)
  {
    var payload := Authenticated(scheme, Run(scheme, ops), token);
    if payload.Some? {
      PresentsIff(scheme, ops, token, payload.value);
      VerdictOn(scheme, Run(scheme, ops), token, payload.value, domain, now);
    }
    if i: nat :| Presents(scheme, ops, i, token) {
      VerdictIsDeserved(scheme, ops, i, token, domain, now);
    }
  }

  /** The request at step `i` earned what the text carries: for this user and domain, still running and never revoked. */
  ghost predicate Vindicates(scheme: Scheme, ops: seq<Op>, i: nat, token: string, domain: Utf8, now: uint64, user: Utf8) {
    && Presents(scheme, ops, i, token) && ops[i].user == user && ops[i].domain == domain
    && now < EarnedPayload(ops, i).expiry
    && !Withdrawn(scheme, ops, EarnedPayload(ops, i).serial)
  }

  /** A text is accepted for a user exactly when it carries what an earlier request of the run earned by presenting that
      user's credential, for the domain, still running and never revoked. */
  lemma AcceptedIff(scheme: Scheme, ops: seq<Op>, token: string, domain: Utf8, now: uint64, user: Utf8)
    ensures Verify(scheme, Run(scheme, ops), token, domain, now) == Ok(user) <==>
            exists i: nat :: Vindicates(scheme, ops, i, token, domain, now, user)
  {
    if Verify(scheme, Run(scheme, ops), token, domain, now) == Ok(user) {
      UnknownIff(scheme, ops, token, domain, now);
      var i: nat :| Presents(scheme, ops, i, token);
      VerdictIsDeserved(scheme, ops, i, token, domain, now);
      assert Vindicates(scheme, ops, i, token, domain, now, user);
    }
    if i: nat :| Vindicates(scheme, ops, i, token, domain, now, user) {
      VerdictIsDeserved(scheme, ops, i, token, domain, now);
    }
  }

  // ---- the object that is updated in place ----

  class TokenIssuer {
    const scheme: Scheme
    var credentials: map<Utf8, Utf8>
    var revoked: set<uint64>
    var serial: uint64
    /** The signing key as an ideal oracle: the messages it has signed. */
    var signed: set<seq<byte>>

    ghost function Abstract(): State
      reads this
    {
      State(credentials, revoked, serial, signed)
    }

    constructor (scheme: Scheme)
      ensures this.scheme == scheme && Abstract() == FRESH
    {
      this.scheme := scheme;
      credentials, revoked, serial, signed := map[], {}, 0, {};
    }

    method RegisterUser(user: Utf8, credential: Utf8)
      modifies this
      ensures Abstract() == Step(scheme, old(Abstract()), Op.RegisterUser(user, credential)).0
    {
      credentials := credentials[user := credential];
    }

    method DecodeAndVerifyToken(token: string) returns (r: Option<Payload>)
      ensures r == Authenticated(scheme, Abstract(), token)
    {
      var parts := SplitToken(token);
      if parts.None? { return None; }
      var (bytes, sig) := parts.value;
      var payload := DecodePayload(bytes);
      if payload.None? { return None; }
      if bytes !in signed || !scheme.accepts(bytes, sig) { return None; }
      return payload;
    }

    method ForwardAndMint(user: Utf8, domain: Utf8, presented: Utf8, now: uint64, ttl: uint64)
      returns (r: Result<LoginToken, TokenError>)
      modifies this
      ensures (Abstract(), if r.Ok? then Minted(r.value) else Refused(r.error)) ==
              Step(scheme, old(Abstract()), Op.ForwardAndMint(user, domain, presented, now, ttl))
    {
      if ttl == 0 { return Err(NonPositiveTtl); }
      if user !in credentials || credentials[user] != presented { return Err(BadCredential); }
      serial := WrappingAdd(serial, 1);
      var expiry := WrappingAdd(now, ttl);
      var bytes := EncodePayload(Payload(serial, expiry, user, domain));
      signed := signed + {bytes};
      var payloadHex := EncodeHex(bytes);
      var sigHex := EncodeHex(scheme.sign(bytes));
      return Ok(LoginToken(PREFIX + payloadHex + "." + sigHex, user, domain, expiry));
    }

    method VerifyToken(token: string, domain: Utf8, now: uint64) returns (r: Result<Utf8, TokenError>)
      ensures r == Verify(scheme, Abstract(), token, domain, now)
    {
      var payload := DecodeAndVerifyToken(token);
      if payload.None? { return Err(UnknownToken); }
      if payload.value.serial in revoked { return Err(TokenError.Revoked); }
      if now >= payload.value.expiry { return Err(Expired); }
      if payload.value.domain != domain { return Err(WrongDomain); }
      return Ok(payload.value.user);
    }

    method Revoke(token: string)
      modifies this
      ensures Abstract() == Step(scheme, old(Abstract()), Op.Revoke(token)).0
    {
      var payload := DecodeAndVerifyToken(token);
      if payload.Some? {
        revoked := revoked + {payload.value.serial};
      }
    }
  }
}
