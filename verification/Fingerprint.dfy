/** The key fingerprint: a bitwise CRC-32 (the one of section 8 of RFC 1952) printed in hex. */
module Fingerprint {
  import opened Wrappers
  import Bytes
  import opened Checksum

  type Word = bv32
  type Octet = bv8

  const POLYNOMIAL: Word := 0xEDB8_8320
  const ALL_ONES: Word := 0xFFFF_FFFF

  function BitStep(crc: Word): Word {
    (crc >> 1) ^ (POLYNOMIAL & (0 - (crc & 1)))
  }

  function EightSteps(crc: Word): Word {
    Iterate(BitStep, crc, 8)
  }

  function Xor(a: Word, b: Word): Word {
    a ^ b
  }

  function Widen(b: Octet): Word {
    b as Word
  }

  function Up(w: Word): Word {
    w << 8
  }

  /** The symbols as one little-endian word; the high ones are lost beyond four. */
  function Pack(s: seq<Octet>): Word {
    if s == [] then 0 else Xor(Widen(s[0]), Up(Pack(s[1..])))
  }

  const CRC: Fold<Word, Octet> := Fold(0, Xor, Widen, EightSteps, Up, Pack)

  function Complement(w: Word): Word {
    !w
  }

  function Crc32(bytes: seq<Octet>): Word {
    Complement(Register(CRC, ALL_ONES, bytes))
  }

  /** The source's nested loop over one 32-bit word. */
  method ComputeCrc32(bytes: seq<Octet>) returns (out: Word)
    ensures out == Crc32(bytes)
  {
    var crc: Word := 0xFFFF_FFFF;
    assert bytes[0..] == bytes;
    for i := 0 to |bytes|
      invariant Register(CRC, crc, bytes[i..]) == Register(CRC, ALL_ONES, bytes)
    {
      assert bytes[i..][1..] == bytes[i + 1..];
      crc := ByteLoop(crc, bytes[i]);
    }
    return !crc;
  }

  method ByteLoop(start: Word, b: Octet) returns (crc: Word)
    ensures crc == EightSteps(Xor(start, Widen(b)))
  {
    crc := start ^ (b as Word);
    ghost var first := crc;
    for k := 0 to 8
      invariant Iterate(BitStep, crc, 8 - k) == Iterate(BitStep, first, 8)
    {
      var mask: Word := 0 - (crc & 1);
      crc := (crc >> 1) ^ (POLYNOMIAL & mask);
    }
  }

  // ---- the CRC obeys the laws of the abstract checksum ----

  lemma BitStepCases(crc: Word)
    ensures crc & 1 == 0 || crc & 1 == 1
    ensures crc & 1 == 0 ==> BitStep(crc) == crc >> 1
    ensures crc & 1 == 1 ==> BitStep(crc) == (crc >> 1) ^ POLYNOMIAL
  {
  }

  lemma XorParts(a: Word, b: Word)
    ensures (a ^ b) >> 1 == (a >> 1) ^ (b >> 1)
    ensures (a ^ b) & 1 == (a & 1) ^ (b & 1)
  {
  }

  lemma XorFour(a: Word, b: Word, p: Word)
    ensures (a ^ p) ^ b == (a ^ b) ^ p && a ^ (b ^ p) == (a ^ b) ^ p && (a ^ p) ^ (b ^ p) == a ^ b
  {
  }

  lemma BitStepLinear(a: Word, b: Word)
    ensures BitStep(Xor(a, b)) == Xor(BitStep(a), BitStep(b))
  {
    BitStepCases(a);
    BitStepCases(b);
    BitStepCases(a ^ b);
    XorParts(a, b);
    XorFour(a >> 1, b >> 1, POLYNOMIAL);
  }

  lemma BitStepInjective(a: Word, b: Word)
    requires BitStep(a) == BitStep(b)
    ensures a == b
  {
  }

  lemma BitStepLaws()
    ensures Linear(CRC, BitStep) && Injective(BitStep)
  {
    forall a, b
      ensures BitStep(CRC.xor(a, b)) == CRC.xor(BitStep(a), BitStep(b))
    {
      BitStepLinear(a, b);
    }
    forall a, b | BitStep(a) == BitStep(b)
      ensures a == b
    {
      BitStepInjective(a, b);
    }
  }

  lemma XorAssociates(a: Word, b: Word, c: Word)
    ensures Xor(Xor(a, b), c) == Xor(a, Xor(b, c))
  {
  }

  lemma XorBasics(a: Word, b: Word)
    ensures Xor(a, b) == Xor(b, a) && Xor(a, 0) == a && Xor(a, a) == 0
  {
  }

  lemma GroupLaws()
    ensures Group(CRC)
  {
    forall a: Word, b: Word, c: Word
      ensures CRC.xor(CRC.xor(a, b), c) == CRC.xor(a, CRC.xor(b, c))
    {
      XorAssociates(a, b, c);
    }
    forall a: Word, b: Word
      ensures CRC.xor(a, b) == CRC.xor(b, a)
    {
      XorBasics(a, b);
    }
    forall a: Word
      ensures CRC.xor(a, CRC.zero) == a && CRC.xor(a, a) == CRC.zero
    {
      XorBasics(a, a);
    }
  }

  lemma EightStepsLaws()
    ensures Linear(CRC, EightSteps) && Injective(EightSteps)
  {
    BitStepLaws();
    forall a, b
      ensures EightSteps(CRC.xor(a, b)) == CRC.xor(EightSteps(a), EightSteps(b))
    {
      IterateLinear(CRC, BitStep, a, b, 8);
    }
    forall a, b | EightSteps(a) == EightSteps(b)
      ensures a == b
    {
      IterateInjective(BitStep, a, b, 8);
    }
  }

  lemma Down8(x: Word)
    requires x < 0x0100_0000
    ensures BitStep(x << 8) == x << 7
  {
  }

  lemma Down7(x: Word)
    requires x < 0x0100_0000
    ensures BitStep(x << 7) == x << 6
  {
  }

  lemma Down6(x: Word)
    requires x < 0x0100_0000
    ensures BitStep(x << 6) == x << 5
  {
  }

  lemma Down5(x: Word)
    requires x < 0x0100_0000
    ensures BitStep(x << 5) == x << 4
  {
  }

  lemma Down4(x: Word)
    requires x < 0x0100_0000
    ensures BitStep(x << 4) == x << 3
  {
  }

  lemma Down3(x: Word)
    requires x < 0x0100_0000
    ensures BitStep(x << 3) == x << 2
  {
  }

  lemma Down2(x: Word)
    requires x < 0x0100_0000
    ensures BitStep(x << 2) == x << 1
  {
  }

  lemma Down1(x: Word)
    requires x < 0x0100_0000
    ensures BitStep(x << 1) == x
  {
  }

  /** Eight steps undo a shift by eight that loses nothing. */
  lemma EightStepsShift(x: Word)
    requires x < 0x0100_0000
    ensures EightSteps(Up(x)) == x
  {
    Down8(x);
    Down7(x);
    Down6(x);
    Down5(x);
    Down4(x);
    Down3(x);
    Down2(x);
    Down1(x);
    IterateChain(BitStep, [x << 8, x << 7, x << 6, x << 5, x << 4, x << 3, x << 2, x << 1, x]);
  }

  lemma PackGrows(b: Octet, x: Word, y: Octet, z: Word)
    ensures x < 0x1_0000 ==> Xor(Widen(b), Up(x)) < 0x0100_0000
    ensures x < 0x100 ==> Xor(Widen(b), Up(x)) < 0x1_0000
    ensures x == 0 ==> Xor(Widen(b), Up(x)) < 0x100
    ensures x < 0x0100_0000 && z < 0x0100_0000 && Xor(Widen(b), Up(x)) == Xor(Widen(y), Up(z)) ==> b == y && x == z
  {
  }

  lemma {:induction false} PackBound(s: seq<Octet>)
    ensures |s| <= 1 ==> Pack(s) < 0x100
    ensures |s| <= 2 ==> Pack(s) < 0x1_0000
    ensures |s| <= 3 ==> Pack(s) < 0x0100_0000
  {
    if s != [] {
      PackBound(s[1..]);
      PackGrows(s[0], Pack(s[1..]), s[0], 0);
    }
  }

  lemma {:induction false} PackInjective(s: seq<Octet>, t: seq<Octet>)
    requires |s| == |t| <= 4 && Pack(s) == Pack(t)
    ensures s == t
  {
    if s != [] {
      PackBound(s[1..]);
      PackBound(t[1..]);
      PackGrows(s[0], Pack(s[1..]), t[0], Pack(t[1..]));
      PackInjective(s[1..], t[1..]);
      assert s == [s[0]] + s[1..] && t == [t[0]] + t[1..];
    }
  }

  lemma PackLaws()
    ensures Packs(CRC, 4)
  {
    forall s: seq<Octet> | |s| < 4
      ensures CRC.step(CRC.up(CRC.pack(s))) == CRC.pack(s)
    {
      PackBound(s);
      EightStepsShift(Pack(s));
    }
    forall s: seq<Octet>, t: seq<Octet> | |s| == |t| <= 4 && CRC.pack(s) == CRC.pack(t)
      ensures s == t
    {
      PackInjective(s, t);
    }
  }

  lemma CrcLaws()
    ensures Group(CRC) && Linear(CRC, CRC.step) && Injective(CRC.step) && Packs(CRC, 4)
  {
    GroupLaws();
    EightStepsLaws();
    PackLaws();
  }

  // ---- what a fingerprint distinguishes ----

  /** A number in lower-case hex without leading zeros. */
  function HexNumber(n: nat): string {
    if n < 16 then [Bytes.HexDigit(n)] else HexNumber(n / 16) + [Bytes.HexDigit(n % 16)]
  }

  lemma {:induction false} HexNumberInjective(n: nat, m: nat)
    requires HexNumber(n) == HexNumber(m)
    ensures n == m
    decreases n
  {
    var s, t := HexNumber(n), HexNumber(m);
    assert s[|s| - 1] == Bytes.HexDigit(n % 16) && t[|t| - 1] == Bytes.HexDigit(m % 16);
    assert n % 16 == m % 16;
    if n < 16 || m < 16 {
    } else {
      assert s[..|s| - 1] == HexNumber(n / 16) && t[..|t| - 1] == HexNumber(m / 16);
      HexNumberInjective(n / 16, m / 16);
    }
  }

  type KeyId = seq<Octet>

  function Format(crc: Word): string {
    "fp:" + HexNumber(crc as nat)
  }

  /** `pillar key fingerprint`: a text for a managed key, nothing for an unknown one. */
  function KeyFingerprint(keys: set<KeyId>, id: KeyId): Option<string> {
    if id in keys then Some(Format(Crc32(id))) else None
  }

  lemma WordsAsNumbers(a: Word, b: Word)
    requires (a as int) == (b as int)
    ensures a == b
  {
    assert (a as int) as bv32 == a;
    assert (b as int) as bv32 == b;
  }

  lemma ComplementInjective(a: Word, b: Word)
    requires Complement(a) == Complement(b)
    ensures a == b
  {
    assert !(!a) == a;
    assert !(!b) == b;
  }

  lemma FormatInjective(x: Word, y: Word)
    requires Format(x) == Format(y)
    ensures x == y
  {
    assert Format(x)[3..] == HexNumber(x as nat) && Format(y)[3..] == HexNumber(y as nat);
    HexNumberInjective(x as nat, y as nat);
    WordsAsNumbers(x, y);
  }

  lemma FingerprintsEqualIff(keys: set<KeyId>, a: KeyId, b: KeyId)
    requires a in keys && b in keys
    ensures KeyFingerprint(keys, a) == KeyFingerprint(keys, b) <==> Crc32(a) == Crc32(b)
  {
    if KeyFingerprint(keys, a) == KeyFingerprint(keys, b) {
      FormatInjective(Crc32(a), Crc32(b));
    }
  }

  lemma Crc32EqualIff(a: KeyId, b: KeyId)
    ensures Crc32(a) == Crc32(b) <==> Register(CRC, ALL_ONES, a) == Register(CRC, ALL_ONES, b)
  {
    if Crc32(a) == Crc32(b) {
      ComplementInjective(Register(CRC, ALL_ONES, a), Register(CRC, ALL_ONES, b));
    }
  }

  /** Key ids that agree outside four consecutive bytes share a fingerprint only if they are equal. */
  lemma BurstsChangeTheFingerprint(keys: set<KeyId>, before: KeyId, s: KeyId, t: KeyId, after: KeyId)
    requires |s| == |t| <= 4
    requires before + s + after in keys && before + t + after in keys
    ensures KeyFingerprint(keys, before + s + after) == KeyFingerprint(keys, before + t + after) <==> s == t
  {
    CrcLaws();
    BurstDetected(CRC, 4, ALL_ONES, before, s, t, after);
    Crc32EqualIff(before + s + after, before + t + after);
    FingerprintsEqualIff(keys, before + s + after, before + t + after);
  }

  function XorOctet(a: Octet, b: Octet): Octet {
    a ^ b
  }

  function XorBytes(a: KeyId, b: KeyId): (d: KeyId)
    requires |a| == |b|
    ensures |d| == |a| && forall i :: 0 <= i < |a| ==> d[i] == XorOctet(a[i], b[i])
  {
    seq(|a|, i requires 0 <= i < |a| => XorOctet(a[i], b[i]))
  }

  lemma WidenXor(a: Octet, b: Octet)
    ensures Widen(XorOctet(a, b)) == Xor(Widen(a), Widen(b))
  {
  }

  lemma WidenLinear()
    ensures forall x, y :: CRC.word(XorOctet(x, y)) == CRC.xor(CRC.word(x), CRC.word(y))
  {
    forall x, y
      ensures CRC.word(XorOctet(x, y)) == CRC.xor(CRC.word(x), CRC.word(y))
    {
      WidenXor(x, y);
    }
  }

  /** The first bytes of the longer id, those that stand opposite nothing when both are aligned at their ends. */
  function Head(a: KeyId, b: KeyId): KeyId
    requires |b| <= |a|
  {
    a[..|a| - |b|]
  }

  /** The difference those bytes make to the register. */
  function Start(head: KeyId): Word {
    Offset(CRC, ALL_ONES, head)
  }

  /** The difference of two ids, aligned at their ends. */
  function Difference(a: KeyId, b: KeyId): KeyId
    requires |b| <= |a|
  {
    XorBytes(a[|a| - |b|..], b)
  }

  lemma RegistersCollideAt(head: KeyId, s: KeyId, t: KeyId)
    requires |s| == |t|
    ensures Register(CRC, ALL_ONES, head + s) == Register(CRC, ALL_ONES, t) <==>
            Register(CRC, Offset(CRC, ALL_ONES, head), XorBytes(s, t)) == CRC.zero
  {
    CrcLaws();
    WidenLinear();
    CollideIff(CRC, XorOctet, ALL_ONES, head, s, t, XorBytes(s, t));
  }

  lemma RegistersCollideIff(a: KeyId, b: KeyId)
    requires |b| <= |a|
    ensures Register(CRC, ALL_ONES, a) == Register(CRC, ALL_ONES, b) <==>
            Register(CRC, Start(Head(a, b)), Difference(a, b)) == CRC.zero
    ensures |a| == |b| ==> Start(Head(a, b)) == CRC.zero && Difference(a, b) == XorBytes(a, b)
  {
    var head, s := Head(a, b), a[|a| - |b|..];
    assert a == head + s;
    RegistersCollideAt(head, s, b);
    if |a| == |b| {
      assert s == a;
    }
  }

  /** Beyond four bytes fingerprints are not distinct per id: two managed ids share a fingerprint exactly when the
      checksum of their difference, aligned at the ends, is zero from the register difference the longer one's first
      bytes make. For ids of one length that register is zero. */
  lemma FingerprintsCollideIff(keys: set<KeyId>, a: KeyId, b: KeyId)
    requires a in keys && b in keys
    ensures KeyFingerprint(keys, a) == KeyFingerprint(keys, b) <==>
            if |b| <= |a| then Register(CRC, Start(Head(a, b)), Difference(a, b)) == 0
            else Register(CRC, Start(Head(b, a)), Difference(b, a)) == 0
    ensures |a| == |b| ==> Start(Head(a, b)) == 0 && Difference(a, b) == XorBytes(a, b)
  {
    if |b| <= |a| {
      RegistersCollideIff(a, b);
    } else {
      RegistersCollideIff(b, a);
    }
    Crc32EqualIff(a, b);
    FingerprintsEqualIff(keys, a, b);
  }

  lemma OneByte(reg: Word, b: Octet, rest: KeyId,
                c0: Word, c1: Word, c2: Word, c3: Word, c4: Word, c5: Word, c6: Word, c7: Word, c8: Word)
    requires c0 == Xor(reg, Widen(b)) && BitStep(c0) == c1 && BitStep(c1) == c2 && BitStep(c2) == c3 && BitStep(c3) == c4
    requires BitStep(c4) == c5 && BitStep(c5) == c6 && BitStep(c6) == c7 && BitStep(c7) == c8
    ensures Register(CRC, reg, [b] + rest) == Register(CRC, c8, rest)
  {
    IterateChain(BitStep, [c0, c1, c2, c3, c4, c5, c6, c7, c8]);
    assert ([b] + rest)[1..] == rest;
  }

  /** Four bytes is the best possible: the ids `dydba` and `x68cu` differ in five and collide. */
  lemma FiveBytesCollide(keys: set<KeyId>)
    requires var a: KeyId, b: KeyId := [0x64, 0x79, 0x64, 0x62, 0x61], [0x78, 0x36, 0x38, 0x63, 0x75]; a in keys && b in keys
    ensures KeyFingerprint(keys, [0x64, 0x79, 0x64, 0x62, 0x61]) == KeyFingerprint(keys, [0x78, 0x36, 0x38, 0x63, 0x75])
  {
    var a: KeyId, b: KeyId := [0x64, 0x79, 0x64, 0x62, 0x61], [0x78, 0x36, 0x38, 0x63, 0x75];
    FingerprintsCollideIff(keys, a, b);
    ZeroSyndrome();
    assert XorBytes(a, b) == [0x1C, 0x4F, 0x5C, 0x01, 0x14];
  }

  /** The last two bytes of the difference. */
  lemma LowBytes(d: KeyId)
    requires d == [0x01] + ([0x14] + [])
    ensures Register(CRC, 0x1401, d) == 0
  {
    OneByte(0x1401, 0x01, [0x14] + [], 0x1400, 0xA00, 0x500, 0x280, 0x140, 0xA0, 0x50, 0x28, 0x14);
    OneByte(0x14, 0x14, [], 0, 0, 0, 0, 0, 0, 0, 0, 0);
  }

  lemma HighBytes(d: KeyId)
    ensures Register(CRC, 0, [0x1C] + ([0x4F] + ([0x5C] + d))) == Register(CRC, 0x1401, d)
  {
    OneByte(0, 0x1C, [0x4F] + ([0x5C] + d), 0x1C, 0xE, 0x7, 0xEDB88323, 0x9B64C2B1, 0xA00AE278, 0x5005713C, 0x2802B89E, 0x14015C4F);
    OneByte(0x14015C4F, 0x4F, [0x5C] + d, 0x14015C00, 0xA00AE00, 0x5005700, 0x2802B80, 0x14015C0, 0xA00AE0, 0x500570, 0x2802B8, 0x14015C);
    OneByte(0x14015C, 0x5C, d, 0x140100, 0xA0080, 0x50040, 0x28020, 0x14010, 0xA008, 0x5004, 0x2802, 0x1401);
  }

  lemma ZeroSyndrome()
    ensures Register(CRC, 0, [0x1C, 0x4F, 0x5C, 0x01, 0x14]) == 0
  {
    var low: KeyId := [0x01] + ([0x14] + []);
    LowBytes(low);
    HighBytes(low);
    assert [0x1C] + ([0x4F] + ([0x5C] + low)) == [0x1C, 0x4F, 0x5C, 0x01, 0x14];
  }

  // ---- the standard check value ----

  lemma CheckPart1(d: KeyId)
    ensures Register(CRC, 0xFFFFFFFF, [0x31] + ([0x32] + ([0x33] + d))) == Register(CRC, 0x77B79C2D, d)
  {
    OneByte(0xFFFFFFFF, 0x31, [0x32] + ([0x33] + d), 0xFFFFFFCE, 0x7FFFFFE7, 0xD2477CD3, 0x849B3D49, 0xAFF51D84, 0x57FA8EC2, 0x2BFD4761, 0xF8462090, 0x7C231048);
    OneByte(0x7C231048, 0x32, [0x33] + d, 0x7C23107A, 0x3E11883D, 0xF2B0473E, 0x7958239F, 0xD11492EF, 0x8532CA57, 0xAF21E60B, 0xBA287025, 0xB0ACBB32);
    OneByte(0xB0ACBB32, 0x33, d, 0xB0ACBB01, 0xB5EEDEA0, 0x5AF76F50, 0x2D7BB7A8, 0x16BDDBD4, 0xB5EEDEA, 0x5AF76F5, 0xEF6F385A, 0x77B79C2D);
  }

  lemma CheckPart2(d: KeyId)
    ensures Register(CRC, 0x77B79C2D, [0x34] + ([0x35] + ([0x36] + d))) == Register(CRC, 0xF68D2C9E, d)
  {
    OneByte(0x77B79C2D, 0x34, [0x35] + ([0x36] + d), 0x77B79C19, 0xD6634D2C, 0x6B31A696, 0x3598D34B, 0xF774EA85, 0x9602F662, 0x4B017B31, 0xC8383EB8, 0x641C1F5C);
    OneByte(0x641C1F5C, 0x35, [0x36] + d, 0x641C1F69, 0xDFB68C94, 0x6FDB464A, 0x37EDA325, 0xF64E52B2, 0x7B272959, 0xD02B178C, 0x68158BC6, 0x340AC5E3);
    OneByte(0x340AC5E3, 0x36, d, 0x340AC5D5, 0xF7BDE1CA, 0x7BDEF0E5, 0xD057FB52, 0x682BFDA9, 0xD9AD7DF4, 0x6CD6BEFA, 0x366B5F7D, 0xF68D2C9E);
  }

  lemma CheckPart3(d: KeyId)
    ensures Register(CRC, 0xF68D2C9E, [0x37] + ([0x38] + ([0x39] + d))) == Register(CRC, 0x340BC6D9, d)
  {
    OneByte(0xF68D2C9E, 0x37, [0x38] + ([0x39] + d), 0xF68D2CA9, 0x96FE1574, 0x4B7F0ABA, 0x25BF855D, 0xFF67418E, 0x7FB3A0C7, 0xD2615343, 0x84882A81, 0xAFFC9660);
    OneByte(0xAFFC9660, 0x38, [0x39] + d, 0xAFFC9658, 0x57FE4B2C, 0x2BFF2596, 0x15FF92CB, 0xE7474A45, 0x9E1B2602, 0x4F0D9301, 0xCA3E4AA0, 0x651F2550);
    OneByte(0x651F2550, 0x39, d, 0x651F2569, 0xDF371194, 0x6F9B88CA, 0x37CDC465, 0xF65E6112, 0x7B2F3089, 0xD02F1B64, 0x68178DB2, 0x340BC6D9);
  }

  /** The checksum of the nine digits is the check value published for this CRC. */
  lemma CheckValue()
    ensures Crc32([0x31, 0x32, 0x33, 0x34, 0x35, 0x36, 0x37, 0x38, 0x39]) == 0xCBF43926
  {
    var c: KeyId := [0x37] + ([0x38] + ([0x39] + []));
    var b: KeyId := [0x34] + ([0x35] + ([0x36] + c));
    CheckPart1(b);
    CheckPart2(c);
    CheckPart3([]);
    assert [0x31] + ([0x32] + ([0x33] + b)) == [0x31, 0x32, 0x33, 0x34, 0x35, 0x36, 0x37, 0x38, 0x39];
  }

  lemma HexNumberStep(n: nat)
    requires n >= 16
    ensures HexNumber(n) == HexNumber(n / 16) + [Bytes.HexDigit(n % 16)]
  {
  }

  lemma CheckText()
    ensures HexNumber(0xCBF43926) == "cbf43926"
  {
    HexNumberStep(0xCBF43926);
    HexNumberStep(0xCBF4392);
    HexNumberStep(0xCBF439);
    HexNumberStep(0xCBF43);
    HexNumberStep(0xCBF4);
    HexNumberStep(0xCBF);
    HexNumberStep(0xCB);
  }

  lemma FormatOf(w: Word, n: nat)
    requires w as nat == n
    ensures Format(w) == "fp:" + HexNumber(n)
  {
  }

  lemma CheckFormat()
    ensures Format(0xCBF43926) == "fp:" + "cbf43926"
  {
    assert (0xCBF43926 as bv32) as nat == 0xCBF43926;
    FormatOf(0xCBF43926, 0xCBF43926);
    CheckText();
  }

  lemma FingerprintOf(keys: set<KeyId>, id: KeyId, w: Word)
    requires id in keys && Crc32(id) == w
    ensures KeyFingerprint(keys, id) == Some(Format(w))
  {
  }

  /** So the key whose id is the nine digits has this fingerprint. */
  lemma CheckFingerprint(keys: set<KeyId>, id: KeyId)
    requires id in keys && id == [0x31, 0x32, 0x33, 0x34, 0x35, 0x36, 0x37, 0x38, 0x39]
    ensures KeyFingerprint(keys, id) == Some("fp:" + "cbf43926")
  {
    CheckValue();
    CheckFormat();
    FingerprintOf(keys, id, 0xCBF43926);
  }
}
