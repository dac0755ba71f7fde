/** The policy a new password must meet, the resource it is stored as, and what a history of changes keeps. */
module CredentialPolicy {
  import opened Wrappers
  import opened Bytes

  const TWO_TO_THE_63 := 0x8000_0000_0000_0000

  type int64 = x: int | -0x8000_0000_0000_0000 <= x < 0x8000_0000_0000_0000

  type Password = seq<byte>

  datatype Policy = Policy(minStrength: uint32, maxAge: Option<uint64>, reuseHistory: uint32, breachCheck: bool)

  datatype Violation = TooWeak(strength: nat, required: uint32) | Reused | Breached

  const Shipped := Policy(3, Some(90 * 24 * 60 * 60), 5, true)

  // ---- strength ----

  datatype Class = Lower | Upper | Digit | Symbol

  function ClassOf(b: byte): Class {
    if 'a' as int <= b <= 'z' as int then Lower
    else if 'A' as int <= b <= 'Z' as int then Upper
    else if '0' as int <= b <= '9' as int then Digit
    else Symbol
  }

  predicate Has(p: Password, c: Class) {
    exists i :: 0 <= i < |p| && ClassOf(p[i]) == c
  }

  function Point(b: bool): nat { if b then 1 else 0 }

  function Strength(p: Password): (r: nat)
    ensures r <= 6
  {
    Point(|p| >= 8) + Point(|p| >= 12) + Point(Has(p, Lower)) + Point(Has(p, Upper)) + Point(Has(p, Digit)) + Point(Has(p, Symbol))
  }

  method PasswordStrength(password: Password) returns (score: nat)
    ensures score == Strength(password)
  {
    score := 0;
    if |password| >= 8 {
      score := score + 1;
    }
    if |password| >= 12 {
      score := score + 1;
    }
    var lower, upper, digit, symbol := false, false, false, false;
    for i := 0 to |password|
      invariant lower == exists j :: 0 <= j < i && ClassOf(password[j]) == Lower
      invariant upper == exists j :: 0 <= j < i && ClassOf(password[j]) == Upper
      invariant digit == exists j :: 0 <= j < i && ClassOf(password[j]) == Digit
      invariant symbol == exists j :: 0 <= j < i && ClassOf(password[j]) == Symbol
    {
      match ClassOf(password[i])
      case Lower => lower := true;
      case Upper => upper := true;
      case Digit => digit := true;
      case Symbol => symbol := true;
    }
    score := score + Point(lower) + Point(upper) + Point(digit) + Point(symbol);
  }

  /** At least as long as p, with every byte of p somewhere in it: p with more bytes put around and between. */
  ghost predicate Extends(q: Password, p: Password) {
    |p| <= |q| && forall i :: 0 <= i < |p| ==> p[i] in q
  }

  /** Adding to a password never weakens it. */
  lemma StrengthGrows(p: Password, q: Password)
    requires Extends(q, p)
    ensures Strength(p) <= Strength(q)
  {
    forall c | Has(p, c)
      ensures Has(q, c)
    {
      var i :| 0 <= i < |p| && ClassOf(p[i]) == c;
      var j :| 0 <= j < |q| && q[j] == p[i];
    }
    assert Has(p, Lower) ==> Has(q, Lower);
    assert Has(p, Upper) ==> Has(q, Upper);
    assert Has(p, Digit) ==> Has(q, Digit);
    assert Has(p, Symbol) ==> Has(q, Symbol);
  }

  /** Both bytes are lower-case letters, both upper-case, both digits, or neither is any of these. */
  predicate SameKind(a: byte, b: byte) {
    || (97 <= a <= 122 && 97 <= b <= 122) || (65 <= a <= 90 && 65 <= b <= 90) || (48 <= a <= 57 && 48 <= b <= 57)
    || (Plain(a) && Plain(b))
  }

  predicate Plain(a: byte) {
    !(97 <= a <= 122) && !(65 <= a <= 90) && !(48 <= a <= 57)
  }

  lemma SameKindIff(a: byte, b: byte)
    ensures ClassOf(a) == ClassOf(b) <==> SameKind(a, b)
  {
  }

  /** A password of one kind of byte scores a point for the kind and one each from the 8th and the 12th byte on. */
  lemma OneKindScores(p: Password)
    requires p != [] && forall i :: 0 <= i < |p| ==> SameKind(p[0], p[i])
    ensures Strength(p) == if |p| < 8 then 1 else if |p| < 12 then 2 else 3
  {
    forall i | 0 <= i < |p|
      ensures ClassOf(p[i]) == ClassOf(p[0])
    {
      SameKindIff(p[0], p[i]);
    }
    assert forall c :: Has(p, c) <==> c == ClassOf(p[0]);
  }

  lemma HasAfter(p: Password, b: byte, c: Class)
    ensures Has(p + [b], c) <==> Has(p, c) || ClassOf(b) == c
  {
    var q := p + [b];
    if Has(p, c) {
      var i :| 0 <= i < |p| && ClassOf(p[i]) == c;
      assert ClassOf(q[i]) == c;
    }
    if ClassOf(b) == c {
      assert ClassOf(q[|p|]) == c;
    }
  }

  /** The password has a byte of this byte's kind. */
  predicate HasKind(p: Password, b: byte) {
    exists i :: 0 <= i < |p| && SameKind(p[i], b)
  }

  lemma HasKindIff(p: Password, b: byte)
    ensures HasKind(p, b) <==> Has(p, ClassOf(b))
  {
    forall i | 0 <= i < |p|
      ensures ClassOf(p[i]) == ClassOf(b) <==> SameKind(p[i], b)
    {
      SameKindIff(p[i], b);
    }
    if HasKind(p, b) {
      var i :| 0 <= i < |p| && SameKind(p[i], b);
      assert ClassOf(p[i]) == ClassOf(b);
    }
  }

  /** A byte of a kind the password lacked adds a point; any other byte adds none but for the length. */
  lemma ByteAdds(p: Password, b: byte)
    ensures Strength(p + [b]) == Strength(p) + Point(!HasKind(p, b)) + Point(|p| == 7) + Point(|p| == 11)
  {
    HasAfter(p, b, Lower);
    HasAfter(p, b, Upper);
    HasAfter(p, b, Digit);
    HasAfter(p, b, Symbol);
    HasKindIff(p, b);
  }

  // ---- the check ----

  /** The last `window` entries, or all when there are fewer. */
  function Recent(history: seq<Password>, window: nat): seq<Password> {
    if |history| > window then history[|history| - window..] else history
  }

  function Evaluate(policy: Policy, p: Password, history: seq<Password>, breached: set<Password>): Result<Unit, Violation> {
    if Strength(p) < policy.minStrength then Err(TooWeak(Strength(p), policy.minStrength))
    else if policy.reuseHistory > 0 && p in Recent(history, policy.reuseHistory) then Err(Reused)
    else if policy.breachCheck && p in breached then Err(Breached)
    else Ok(Unit)
  }

  method EvaluateNewPassword(policy: Policy, p: Password, history: seq<Password>, breached: set<Password>)
    returns (r: Result<Unit, Violation>)
    ensures r == Evaluate(policy, p, history, breached)
  {
    var strength := PasswordStrength(p);
    if strength < policy.minStrength {
      return Err(TooWeak(strength, policy.minStrength));
    }
    if policy.reuseHistory > 0 {
      var window := policy.reuseHistory;
      var recent := if |history| > window then history[|history| - window..] else history;
      for i := 0 to |recent|
        invariant p !in recent[..i]
      {
        if recent[i] == p {
          return Err(Reused);
        }
      }
      assert recent[..|recent|] == recent;
    }
    if policy.breachCheck && p in breached {
      return Err(Breached);
    }
    return Ok(Unit);
  }

  predicate Repeats(p: Password, history: seq<Password>, window: nat) {
    exists i :: 0 <= i < |history| && |history| - i <= window && history[i] == p
  }

  lemma RecentIsRepeats(p: Password, history: seq<Password>, window: nat)
    ensures p in Recent(history, window) <==> Repeats(p, history, window)
  {
    if Repeats(p, history, window) && |history| > window {
      var i :| 0 <= i < |history| && |history| - i <= window && history[i] == p;
      assert history[|history| - window..][i - (|history| - window)] == p;
    }
    if p in Recent(history, window) {
      var j :| 0 <= j < |Recent(history, window)| && Recent(history, window)[j] == p;
      var from := |history| - |Recent(history, window)|;
      assert history[from + j] == p;
    }
  }

  /** A password is accepted exactly when every rule in force holds of it; otherwise the verdict names the first
      broken rule in the order strength, reuse, breach. */
  lemma AcceptedIff(policy: Policy, p: Password, history: seq<Password>, breached: set<Password>)
    ensures Evaluate(policy, p, history, breached).Ok? <==>
            && policy.minStrength <= Strength(p)
            && !Repeats(p, history, policy.reuseHistory)
            && (policy.breachCheck ==> p !in breached)
    ensures Evaluate(policy, p, history, breached) == Err(Reused) <==>
            policy.minStrength <= Strength(p) && Repeats(p, history, policy.reuseHistory)
    ensures Evaluate(policy, p, history, breached) == Err(Breached) <==>
            && policy.minStrength <= Strength(p)
            && !Repeats(p, history, policy.reuseHistory)
            && policy.breachCheck && p in breached
  {
    RecentIsRepeats(p, history, policy.reuseHistory);
  }

  /** At least as strict in every rule. */
  predicate Stricter(a: Policy, b: Policy) {
    && b.minStrength <= a.minStrength
    && b.reuseHistory <= a.reuseHistory
    && (b.breachCheck ==> a.breachCheck)
  }

  /** A stricter policy over a larger breach list accepts nothing the looser one refuses. */
  lemma StricterAcceptsLess(a: Policy, b: Policy, p: Password, history: seq<Password>, big: set<Password>, small: set<Password>)
    requires Stricter(a, b) && small <= big
    requires Evaluate(a, p, history, big).Ok?
    ensures Evaluate(b, p, history, small).Ok?
  {
    AcceptedIff(a, p, history, big);
    AcceptedIff(b, p, history, small);
  }

  ghost predicate NeverLooser(a: Policy, b: Policy) {
    forall p: Password, history: seq<Password>, breached: set<Password> ::
      Evaluate(a, p, history, breached).Ok? ==> Evaluate(b, p, history, breached).Ok?
  }

  /** A password of every score there is. */
  function Sample(n: nat): Password
    requires n <= 6
  {
    if n == 0 then []
    else if n == 1 then [97]
    else if n == 2 then [97, 65]
    else if n == 3 then [97, 65, 48]
    else if n == 4 then [97, 65, 48, 33]
    else if n == 5 then [97, 65, 48, 33, 97, 97, 97, 97]
    else [97, 65, 48, 33, 97, 97, 97, 97, 97, 97, 97, 97]
  }

  lemma SampleScores(n: nat)
    requires n <= 6
    ensures Strength(Sample(n)) == n
  {
    var p := Sample(n);
    assert n >= 1 ==> ClassOf(p[0]) == Lower;
    assert n >= 2 ==> ClassOf(p[1]) == Upper;
    assert n >= 3 ==> ClassOf(p[2]) == Digit;
    assert n >= 4 ==> ClassOf(p[3]) == Symbol;
  }

  /** The strongest password, used once and then followed by n others. */
  function UsedOnce(n: nat): seq<Password> {
    [Sample(6)] + seq(n, _ => [])
  }

  lemma UsedOnceRepeats(n: nat, window: nat)
    ensures Repeats(Sample(6), UsedOnce(n), window) <==> n < window
  {
    var history := UsedOnce(n);
    assert forall i :: 0 < i < |history| ==> history[i] == [];
    assert history[0] == Sample(6);
  }

  /** One policy accepts no more than another exactly when it is stricter rule by rule, or asks for a score beyond
      the highest there is and so accepts nothing. */
  lemma StricterIff(a: Policy, b: Policy)
    ensures NeverLooser(a, b) <==> Stricter(a, b) || a.minStrength > 6
  {
    if a.minStrength <= 6 && NeverLooser(a, b) {
      var weak, strong := Sample(a.minStrength), Sample(6);
      SampleScores(a.minStrength);
      SampleScores(6);
      AcceptedIff(a, weak, [], {});
      AcceptedIff(b, weak, [], {});
      AcceptedIff(a, strong, [], {strong});
      AcceptedIff(b, strong, [], {strong});
      AcceptedIff(a, strong, UsedOnce(a.reuseHistory), {});
      AcceptedIff(b, strong, UsedOnce(a.reuseHistory), {});
      UsedOnceRepeats(a.reuseHistory, a.reuseHistory);
      UsedOnceRepeats(a.reuseHistory, b.reuseHistory);
    }
    if Stricter(a, b) {
      forall p: Password, history: seq<Password>, breached: set<Password> | Evaluate(a, p, history, breached).Ok?
        ensures Evaluate(b, p, history, breached).Ok?
      {
        StricterAcceptsLess(a, b, p, history, breached, breached);
      }
    }
  }

  // ---- a history of changes ----

  datatype Change = Change(policy: Policy, password: Password, breached: set<Password>)

  /** Each change is judged by the policy then in force and kept when accepted. */
  function Changes(changes: seq<Change>): seq<Password> {
    if changes == [] then []
    else
      var history := Changes(changes[..|changes| - 1]);
      var c := changes[|changes| - 1];
      if Evaluate(c.policy, c.password, history, c.breached).Ok? then history + [c.password] else history
  }

  /** Entry `at` of a history kept the rules of a policy whose window is `window`. */
  predicate DiffersFromRecent(history: seq<Password>, at: nat, window: nat) {
    at < |history| && forall i :: 0 <= i < at && at - i <= window ==> history[i] != history[at]
  }

  ghost predicate AllAtLeast(changes: seq<Change>, floor: Policy) {
    forall i :: 0 <= i < |changes| ==> Stricter(changes[i].policy, floor)
  }

  ghost predicate KeepsFloor(history: seq<Password>, floor: Policy) {
    forall at :: 0 <= at < |history| ==>
      Strength(history[at]) >= floor.minStrength && DiffersFromRecent(history, at, floor.reuseHistory)
  }

  /** Change `k` was accepted, as entry `at` of the history. */
  predicate Enters(changes: seq<Change>, k: nat, at: nat) {
    && k < |changes|
    && Evaluate(changes[k].policy, changes[k].password, Changes(changes[..k]), changes[k].breached).Ok?
    && at == |Changes(changes[..k])|
  }

  /** The same, with a password outside the breach list the change was judged by. */
  predicate EntersClean(changes: seq<Change>, k: nat, at: nat) {
    && Enters(changes, k, at) && at < |Changes(changes)|
    && Changes(changes)[at] == changes[k].password && changes[k].password !in changes[k].breached
  }

  ghost predicate HasCleanOrigin(changes: seq<Change>, at: nat) {
    exists k: nat :: EntersClean(changes, k, at)
  }

  /** Every entry is the password of one accepted change. */
  lemma {:induction false} EntryHasChange(changes: seq<Change>, at: nat) returns (k: nat)
    requires at < |Changes(changes)|
    ensures Enters(changes, k, at) && Changes(changes)[at] == changes[k].password
  {
    var n := |changes| - 1;
    if at < |Changes(changes[..n])| {
      k := EntryHasChange(changes[..n], at);
      assert changes[..n][..k] == changes[..k];
    } else {
      k := n;
    }
  }

  /** Whatever is tried, and however the policy is edited above a floor, every password ever in force met the floor:
      strong enough, different from the `reuseHistory` passwords before it, and, where the floor asks for the check,
      outside the breach list its change was judged by. */
  lemma HistoryKeepsFloor(changes: seq<Change>, floor: Policy)
    requires AllAtLeast(changes, floor)
    ensures KeepsFloor(Changes(changes), floor)
    ensures floor.breachCheck ==> forall at: nat :: at < |Changes(changes)| ==> HasCleanOrigin(changes, at)
  {
    StrengthAndReuse(changes, floor);
    if floor.breachCheck {
      forall at: nat | at < |Changes(changes)|
        ensures HasCleanOrigin(changes, at)
      {
        var k := EntryHasChange(changes, at);
        assert Stricter(changes[k].policy, floor);
        AcceptedIff(changes[k].policy, changes[k].password, Changes(changes[..k]), changes[k].breached);
        assert EntersClean(changes, k, at);
      }
    }
  }

  lemma {:induction false} StrengthAndReuse(changes: seq<Change>, floor: Policy)
    requires AllAtLeast(changes, floor)
    ensures KeepsFloor(Changes(changes), floor)
  {
    if changes != [] {
      var n := |changes| - 1;
      var before := Changes(changes[..n]);
      var c := changes[n];
      StrengthAndReuse(changes[..n], floor);
      assert Stricter(c.policy, floor);
      AcceptedIff(c.policy, c.password, before, c.breached);
      if Evaluate(c.policy, c.password, before, c.breached).Ok? {
        AppendKeepsFloor(before, c.password, floor, c.policy.reuseHistory);
      }
    }
  }

  lemma AppendKeepsFloor(history: seq<Password>, p: Password, floor: Policy, window: nat)
    requires KeepsFloor(history, floor) && floor.reuseHistory <= window
    requires Strength(p) >= floor.minStrength && !Repeats(p, history, window)
    ensures KeepsFloor(history + [p], floor)
  {
    var longer := history + [p];
    forall at | 0 <= at < |longer|
      ensures Strength(longer[at]) >= floor.minStrength && DiffersFromRecent(longer, at, floor.reuseHistory)
    {
      if at < |history| {
        assert DiffersFromRecent(history, at, floor.reuseHistory);
      } else {
        forall i | 0 <= i < at && at - i <= floor.reuseHistory
          ensures longer[i] != p
        {
          assert |history| - i <= window;
        }
      }
    }
  }

  // ---- the policy as a resource ----

  datatype Value = Integer(i: int64) | Boolean(b: bool) | Text(t: string)

  const F_MIN_STRENGTH := "minPasswordStrength"
  const F_MAX_AGE := "maxPasswordAgeSecs"
  const F_REUSE_HISTORY := "reuseHistory"
  const F_BREACH_CHECK := "breachCheck"

  /** An unsigned 64-bit value read as signed. */
  function AsI64(x: uint64): int64 {
    if x < TWO_TO_THE_63 then x else x - TWO_TO_THE_64
  }

  /** A signed value cut to its low 32 bits. */
  function AsU32(x: int64): uint32
    requires x >= 0
  {
    x % TWO_TO_THE_32
  }

  function ToSpec(p: Policy): map<string, Value> {
    var spec := map[
      F_MIN_STRENGTH := Integer(p.minStrength),
      F_REUSE_HISTORY := Integer(p.reuseHistory),
      F_BREACH_CHECK := Boolean(p.breachCheck)];
    if p.maxAge.Some? then spec[F_MAX_AGE := Integer(AsI64(p.maxAge.value))] else spec
  }

  function CountFrom(spec: map<string, Value>, field: string, shipped: uint32): uint32 {
    if field in spec && spec[field].Integer? && spec[field].i >= 0 then AsU32(spec[field].i) else shipped
  }

  function FromSpec(spec: map<string, Value>): Policy {
    Policy(
      CountFrom(spec, F_MIN_STRENGTH, Shipped.minStrength),
      if F_MAX_AGE !in spec then None
      else if !spec[F_MAX_AGE].Integer? then Shipped.maxAge
      else if spec[F_MAX_AGE].i > 0 then Some(spec[F_MAX_AGE].i)
      else None,
      CountFrom(spec, F_REUSE_HISTORY, Shipped.reuseHistory),
      if F_BREACH_CHECK in spec && spec[F_BREACH_CHECK].Boolean? then spec[F_BREACH_CHECK].b else Shipped.breachCheck)
  }

  /** A policy is read back as it was written exactly when its maximum age, if it has one, is neither zero nor beyond
      the signed range the resource stores integers in; any other age is read back as no age at all. */
  lemma ResourceRoundTripIff(p: Policy)
    ensures FromSpec(ToSpec(p)) == p <==> (p.maxAge.Some? ==> 0 < p.maxAge.value < TWO_TO_THE_63)
    ensures FromSpec(ToSpec(p)) == p || FromSpec(ToSpec(p)) == p.(maxAge := None)
  {
    FieldNames();
    CountRoundTrip(p.minStrength);
    CountRoundTrip(p.reuseHistory);
  }

  lemma FieldNames()
    ensures F_MAX_AGE !in {F_MIN_STRENGTH, F_REUSE_HISTORY, F_BREACH_CHECK}
    ensures F_MIN_STRENGTH !in {F_REUSE_HISTORY, F_BREACH_CHECK} && F_REUSE_HISTORY != F_BREACH_CHECK
  {
    assert |F_MAX_AGE| == 18 && |F_MIN_STRENGTH| == 19 && |F_REUSE_HISTORY| == 12 && |F_BREACH_CHECK| == 11;
  }

  lemma CountRoundTrip(x: uint32)
    ensures AsU32(x) == x
  {
  }

  /** An edited count is used as written exactly when it fits 32 bits; a larger one is cut and can only get smaller. */
  lemma EditedCountIff(spec: map<string, Value>, field: string, shipped: uint32)
    requires field in spec && spec[field].Integer? && spec[field].i >= 0
    ensures CountFrom(spec, field, shipped) == spec[field].i <==> spec[field].i < TWO_TO_THE_32
    ensures CountFrom(spec, field, shipped) <= spec[field].i
  {
    var x := spec[field].i;
    if x >= TWO_TO_THE_32 {
      assert x % TWO_TO_THE_32 < TWO_TO_THE_32;
    }
  }

  /** A field that is missing, of another type or negative is read as the shipped one, except the age: no field is no
      age, and so is an age that is not positive. */
  lemma MalformedFieldsFallBack(spec: map<string, Value>)
    ensures var p := FromSpec(spec);
            && (Malformed(spec, "minPasswordStrength") ==> p.minStrength == 3)
            && (Malformed(spec, "reuseHistory") ==> p.reuseHistory == 5)
            && ("breachCheck" !in spec || !spec["breachCheck"].Boolean? ==> p.breachCheck)
            && ("breachCheck" in spec && spec["breachCheck"].Boolean? ==> p.breachCheck == spec["breachCheck"].b)
            && ("maxPasswordAgeSecs" !in spec ==> p.maxAge == None)
            && ("maxPasswordAgeSecs" in spec && !spec["maxPasswordAgeSecs"].Integer? ==> p.maxAge == Some(7776000))
            && ("maxPasswordAgeSecs" in spec && spec["maxPasswordAgeSecs"].Integer? ==>
                  var i := spec["maxPasswordAgeSecs"].i; p.maxAge == if i > 0 then Some(i) else None)
  {
  }

  predicate Malformed(spec: map<string, Value>, field: string) {
    field !in spec || !spec[field].Integer? || spec[field].i < 0
  }

  /** An operator asking for a strength of 2^32 switches the strength rule off: every password passes it. */
  lemma HugeFloorIsNoFloor(p: Password)
    ensures var policy := FromSpec(map[F_MIN_STRENGTH := Integer(TWO_TO_THE_32), F_BREACH_CHECK := Boolean(false)]);
            policy.minStrength == 0 && Evaluate(policy, p, [], {}) == Ok(Unit)
  {
    FieldNames();
    assert TWO_TO_THE_32 % TWO_TO_THE_32 == 0;
  }

  /** A maximum age of 2^63 seconds is written as a negative number and read back as no maximum. */
  lemma HugeAgeIsNoAge(p: Policy)
    requires p.maxAge == Some(TWO_TO_THE_63)
    ensures ToSpec(p)[F_MAX_AGE] == Integer(-TWO_TO_THE_63) && FromSpec(ToSpec(p)).maxAge == None
  {
    FieldNames();
  }
}
