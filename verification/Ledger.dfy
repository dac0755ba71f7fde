/** The authority ledger: a grow-only list of grants with expiry, revocation and granter-capped
    levels, including just-in-time elevations. */
module Ledger {
  import opened Wrappers

  type Identity = string

  const MAX_LEVEL: nat := 8

  datatype GrantKind = Ordinary | Jit

  datatype Grant = Grant(
    id: nat, granter: Identity, subject: Identity, level: nat, expiry: nat, kind: GrantKind, granterLevel: nat)
  {
    predicate IsLive(now: nat, revoked: set<nat>) {
      id !in revoked && now <= expiry
    }
  }

  datatype ElevationError =
    | LevelOutOfRange(requested: nat)
    | ExceedsGranter(requested: nat, granterLevel: nat)
    | NotAnElevation(requested: nat, subjectLevel: nat)
    | ExpiryInPast(expiry: nat, now: nat)

  type Reply = Result<nat, ElevationError>

  /** The greatest level among the live grants naming `subject`, 0 without one. */
  function LiveMax(grants: seq<Grant>, subject: Identity, now: nat, revoked: set<nat>): nat {
    if grants == [] then 0
    else
      var rest := LiveMax(grants[..|grants| - 1], subject, now, revoked);
      var g := grants[|grants| - 1];
      if g.subject == subject && g.IsLive(now, revoked) && g.level > rest then g.level else rest
  }

  /** The first grant carrying `id`. */
  function Find(grants: seq<Grant>, id: nat): Option<Grant> {
    if grants == [] then None else if grants[0].id == id then Some(grants[0]) else Find(grants[1..], id)
  }

  datatype State = State(grants: seq<Grant>, revoked: set<nat>, now: nat, nextId: nat, owner: Option<Identity>) {

    function EffAuth(n: Identity): nat {
      if owner == Some(n) then MAX_LEVEL else LiveMax(grants, n, now, revoked)
    }

    predicate Admits(id: nat) {
      var found := Find(grants, id);
      found.Some? && found.value.IsLive(now, revoked)
    }

    predicate LiveAt(k: nat)
      requires k < |grants|
    {
      grants[k].IsLive(now, revoked)
    }

    /** Every elevation is capped by its granter's stamped level, and contributes nothing to its
        subject once past its window. */
    predicate JitElevationIsBounded() {
      forall k :: 0 <= k < |grants| && grants[k].kind.Jit? ==>
        && grants[k].level <= grants[k].granterLevel
        && (now > grants[k].expiry ==>
              forall m :: 0 <= m < |grants| && grants[m].subject == grants[k].subject && LiveAt(m) ==>
                grants[m].id != grants[k].id)
    }
  }

  datatype Op =
    | IssueGrant(granter: Identity, subject: Identity, level: nat, expiry: nat)
    | JitElevate(granter: Identity, subject: Identity, level: nat, expiry: nat)
    | Revoke(id: nat)
    | TickTo(t: nat)

  predicate Issues(op: Op) {
    op.IssueGrant? || op.JitElevate?
  }

  function Init(owner: Option<Identity>): State {
    State([], {}, 0, 1, owner)
  }

  function Pushed(s: State, granter: Identity, subject: Identity, level: nat, expiry: nat, kind: GrantKind, cap: nat)
    : (State, Reply)
  {
    (s.(nextId := s.nextId + 1, grants := s.grants + [Grant(s.nextId, granter, subject, level, expiry, kind, cap)]),
     Ok(s.nextId))
  }

  /** One operation of the ledger: the new state and, for an issue, the new grant id or the refusal. */
  function Step(s: State, op: Op): (State, Reply) {
    match op
    case IssueGrant(granter, subject, level, expiry) =>
      if level == 0 || level > MAX_LEVEL then (s, Err(LevelOutOfRange(level)))
      else if expiry < s.now then (s, Err(ExpiryInPast(expiry, s.now)))
      else if level > s.EffAuth(granter) then (s, Err(ExceedsGranter(level, s.EffAuth(granter))))
      else Pushed(s, granter, subject, level, expiry, Ordinary, s.EffAuth(granter))
    case JitElevate(granter, subject, level, expiry) =>
      if level == 0 || level > MAX_LEVEL then (s, Err(LevelOutOfRange(level)))
      else if expiry < s.now then (s, Err(ExpiryInPast(expiry, s.now)))
      else if level > s.EffAuth(granter) then (s, Err(ExceedsGranter(level, s.EffAuth(granter))))
      else if level <= s.EffAuth(subject) then (s, Err(NotAnElevation(level, s.EffAuth(subject))))
      else Pushed(s, granter, subject, level, expiry, Jit, s.EffAuth(granter))
    case Revoke(id) => (s.(revoked := s.revoked + {id}), Ok(0))
    case TickTo(t) => (if t > s.now then s.(now := t) else s, Ok(0))
  }

  function Run(owner: Option<Identity>, ops: seq<Op>): State {
    if ops == [] then Init(owner) else Step(Run(owner, ops[..|ops| - 1]), ops[|ops| - 1]).0
  }

  function At(owner: Option<Identity>, ops: seq<Op>, i: nat): State
    requires i <= |ops|
  {
    Run(owner, ops[..i])
  }

  lemma AtStep(owner: Option<Identity>, ops: seq<Op>, i: nat)
    requires i < |ops|
    ensures At(owner, ops, i + 1) == Step(At(owner, ops, i), ops[i]).0
  {
    assert ops[..i + 1][..i] == ops[..i];
  }

  // ---- effective authority is the greatest live grant ----

  lemma {:induction false} LiveMaxIsMax(grants: seq<Grant>, subject: Identity, now: nat, revoked: set<nat>)
    ensures forall k :: 0 <= k < |grants| && grants[k].subject == subject && grants[k].IsLive(now, revoked) ==>
              grants[k].level <= LiveMax(grants, subject, now, revoked)
    ensures LiveMax(grants, subject, now, revoked) == 0 ||
            exists k :: && 0 <= k < |grants| && grants[k].subject == subject && grants[k].IsLive(now, revoked)
                        && grants[k].level == LiveMax(grants, subject, now, revoked)
  {
    if grants == [] {
    } else {
      var before := grants[..|grants| - 1];
      LiveMaxIsMax(before, subject, now, revoked);
      assert forall k :: 0 <= k < |before| ==> before[k] == grants[k];
      if k :| && 0 <= k < |before| && before[k].subject == subject && before[k].IsLive(now, revoked)
              && before[k].level == LiveMax(before, subject, now, revoked) {
        assert grants[k].subject == subject && grants[k].level == LiveMax(before, subject, now, revoked);
      }
    }
  }

  /** Later time and more revocations never raise the maximum over the same grants. */
  lemma {:induction false} LiveMaxShrinks(
    grants: seq<Grant>, n: Identity, now: nat, revoked: set<nat>, now': nat, revoked': set<nat>)
    requires now <= now' && revoked <= revoked'
    ensures LiveMax(grants, n, now', revoked') <= LiveMax(grants, n, now, revoked)
  {
    if grants != [] {
      LiveMaxShrinks(grants[..|grants| - 1], n, now, revoked, now', revoked');
    }
  }

  // ---- what every run keeps ----

  /** Ids number the grants in order of issue, and every level lies between 1 and its cap. */
  ghost predicate Ordered(s: State) {
    && s.nextId == |s.grants| + 1
    && (forall k :: 0 <= k < |s.grants| ==>
          s.grants[k].id == k + 1 && 1 <= s.grants[k].level <= s.grants[k].granterLevel)
  }

  ghost predicate Advances(s: State, t: State) {
    s.grants <= t.grants && s.revoked <= t.revoked && s.now <= t.now && s.owner == t.owner
  }

  lemma {:induction false} Reachable(owner: Option<Identity>, ops: seq<Op>)
    ensures Ordered(Run(owner, ops)) && Run(owner, ops).owner == owner
  {
    if ops != [] {
      Reachable(owner, ops[..|ops| - 1]);
    }
  }

  lemma {:induction false} RunAdvances(owner: Option<Identity>, ops: seq<Op>, i: nat, j: nat)
    requires i <= j <= |ops|
    ensures Advances(At(owner, ops, i), At(owner, ops, j))
    decreases j - i
  {
    if i < j {
      RunAdvances(owner, ops, i, j - 1);
      AtStep(owner, ops, j - 1);
    }
  }

  /** The state predicate the specification names holds in every reachable ledger. */
  lemma ElevationsStayBounded(owner: Option<Identity>, ops: seq<Op>)
    ensures Run(owner, ops).JitElevationIsBounded()
  {
    Reachable(owner, ops);
  }

  lemma {:induction false} FindById(grants: seq<Grant>, id: nat, first: nat)
    requires forall k :: 0 <= k < |grants| ==> grants[k].id == first + k
    ensures Find(grants, id) == if first <= id < first + |grants| then Some(grants[id - first]) else None
  {
    if grants != [] {
      FindById(grants[1..], id, first + 1);
    }
  }

  lemma AdmitsIffLive(owner: Option<Identity>, ops: seq<Op>, id: nat)
    ensures Run(owner, ops).Admits(id) <==>
            1 <= id <= |Run(owner, ops).grants| && Run(owner, ops).LiveAt(id - 1)
  {
    Reachable(owner, ops);
    FindById(Run(owner, ops).grants, id, 1);
  }

  /** An issued grant that no longer admits never admits again. */
  lemma DeadStaysDead(owner: Option<Identity>, ops: seq<Op>, i: nat, j: nat, id: nat)
    requires i <= j <= |ops|
    requires 1 <= id <= |At(owner, ops, i).grants|
    ensures At(owner, ops, j).Admits(id) ==> At(owner, ops, i).Admits(id)
  {
    RunAdvances(owner, ops, i, j);
    AdmitsIffLive(owner, ops[..i], id);
    AdmitsIffLive(owner, ops[..j], id);
  }

  // ---- every grant descends from the owner ----

  /** Grant number `k` was appended by step `i`. */
  ghost predicate IssuedAt(owner: Option<Identity>, ops: seq<Op>, i: nat, k: nat) {
    && i < |ops| && Issues(ops[i])
    && |At(owner, ops, i).grants| == k && |At(owner, ops, i + 1).grants| == k + 1
  }

  lemma {:induction false} IssueStep(owner: Option<Identity>, ops: seq<Op>, j: nat, k: nat)
    requires j <= |ops| && k < |At(owner, ops, j).grants|
    ensures exists i: nat :: i < j && IssuedAt(owner, ops, i, k)
    decreases j
  {
    if j > 0 {
      AtStep(owner, ops, j - 1);
      if k < |At(owner, ops, j - 1).grants| {
        IssueStep(owner, ops, j - 1, k);
      } else {
        assert IssuedAt(owner, ops, j - 1, k);
      }
    }
  }

  /** Grant `next` was issued by the subject of grant `g`, at no higher level, while `g` was live. */
  ghost predicate Derives(owner: Option<Identity>, ops: seq<Op>, g: nat, next: nat) {
    var grants := Run(owner, ops).grants;
    && g < next < |grants|
    && grants[next].granter == grants[g].subject
    && grants[next].level <= grants[g].level
    && exists i: nat :: && IssuedAt(owner, ops, i, next) && g < |At(owner, ops, i).grants|
                        && At(owner, ops, i).LiveAt(g)
  }

  /** A chain of grants from one issued by the owner down to grant `k`. */
  ghost predicate Chain(owner: Option<Identity>, ops: seq<Op>, c: seq<nat>, k: nat) {
    && c != [] && c[|c| - 1] == k && c[0] < |Run(owner, ops).grants|
    && owner == Some(Run(owner, ops).grants[c[0]].granter)
    && forall x :: 0 <= x < |c| - 1 ==> Derives(owner, ops, c[x], c[x + 1])
  }

  /** What an issue appends is capped by the granter's authority at that moment: the owner's, or
      that of some live grant naming the granter. */
  lemma IssueIsBacked(s: State, op: Op)
    requires |Step(s, op).0.grants| > |s.grants|
    ensures var issued := Step(s, op).0.grants[|s.grants|];
            || s.owner == Some(issued.granter)
            || exists g :: && 0 <= g < |s.grants| && s.grants[g].subject == issued.granter
                           && s.LiveAt(g) && issued.level <= s.grants[g].level
  {
    LiveMaxIsMax(s.grants, op.granter, s.now, s.revoked);
  }

  /** A grant, once in the ledger, is never rewritten. */
  lemma GrantIsFinal(owner: Option<Identity>, ops: seq<Op>, i: nat, k: nat)
    requires i <= |ops| && k < |At(owner, ops, i).grants|
    ensures k < |Run(owner, ops).grants| && Run(owner, ops).grants[k] == At(owner, ops, i).grants[k]
  {
    assert ops[..|ops|] == ops;
    RunAdvances(owner, ops, i, |ops|);
  }

  lemma BackedAt(owner: Option<Identity>, ops: seq<Op>, i: nat, k: nat)
    requires IssuedAt(owner, ops, i, k)
    ensures var s, issued := At(owner, ops, i), At(owner, ops, i + 1).grants[k];
            || owner == Some(issued.granter)
            || exists g :: && 0 <= g < |s.grants| && s.grants[g].subject == issued.granter
                           && s.LiveAt(g) && issued.level <= s.grants[g].level
  {
    AtStep(owner, ops, i);
    IssueIsBacked(At(owner, ops, i), ops[i]);
    Reachable(owner, ops[..i]);
  }

  /** The link from grant `k`, issued by step `i`, up: to the owner, or to an earlier grant. */
  lemma LinkOf(owner: Option<Identity>, ops: seq<Op>, i: nat, k: nat)
    requires IssuedAt(owner, ops, i, k)
    ensures k < |Run(owner, ops).grants|
    ensures owner == Some(Run(owner, ops).grants[k].granter) || exists g: nat :: Derives(owner, ops, g, k)
  {
    var s, issued := At(owner, ops, i), At(owner, ops, i + 1).grants[k];
    BackedAt(owner, ops, i, k);
    GrantIsFinal(owner, ops, i + 1, k);
    if owner != Some(issued.granter) {
      var g :| && 0 <= g < |s.grants| && s.grants[g].subject == issued.granter
               && s.LiveAt(g) && issued.level <= s.grants[g].level;
      GrantIsFinal(owner, ops, i, g);
      assert Derives(owner, ops, g, k);
    }
  }

  /** Every grant of every reachable ledger has a finite chain of strictly earlier grants back to the
      owner, along which levels never increase and each link was live when the next was issued. */
  lemma {:induction false} DescendsFromOwner(owner: Option<Identity>, ops: seq<Op>, k: nat)
    requires k < |Run(owner, ops).grants|
    ensures exists c :: Chain(owner, ops, c, k)
    decreases k
  {
    assert ops[..|ops|] == ops;
    IssueStep(owner, ops, |ops|, k);
    var i: nat :| i < |ops| && IssuedAt(owner, ops, i, k);
    LinkOf(owner, ops, i, k);
    if owner == Some(Run(owner, ops).grants[k].granter) {
      assert Chain(owner, ops, [k], k);
    } else {
      var g: nat :| Derives(owner, ops, g, k);
      DescendsFromOwner(owner, ops, g);
      var c :| Chain(owner, ops, c, g);
      var longer := c + [k];
      forall x | 0 <= x < |longer| - 1
        ensures Derives(owner, ops, longer[x], longer[x + 1])
      {
        if x < |c| - 1 { assert Derives(owner, ops, c[x], c[x + 1]); }
      }
      assert Chain(owner, ops, longer, k);
    }
  }

  /** Without a trust anchor nothing is ever granted. */
  lemma NoOwnerNoGrants(ops: seq<Op>)
    ensures Run(None, ops).grants == []
  {
    if Run(None, ops).grants != [] {
      DescendsFromOwner(None, ops, 0);
    }
  }

  // ---- authority is confined ----

  /** Nobody in the set holds more than `cap`. */
  ghost predicate AtMost(s: State, group: iset<Identity>, cap: nat) {
    forall n :: n in group ==> s.EffAuth(n) <= cap
  }

  lemma ConfinedStep(s: State, op: Op, group: iset<Identity>, cap: nat)
    requires s.owner.Some? ==> s.owner.value !in group
    requires AtMost(s, group, cap)
    requires var t := Step(s, op).0;
             |t.grants| > |s.grants| && t.grants[|s.grants|].subject in group ==> t.grants[|s.grants|].granter in group
    ensures AtMost(Step(s, op).0, group, cap)
  {
    var t := Step(s, op).0;
    forall n | n in group
      ensures t.EffAuth(n) <= cap
    {
      LiveMaxShrinks(s.grants, n, s.now, s.revoked, t.now, t.revoked);
      if |t.grants| > |s.grants| {
        assert t.grants[..|t.grants| - 1] == s.grants;
      }
    }
  }

  /** For any set of identities without the owner, over any stretch of a run in which members of the
      set receive grants only from members of the set, the greatest authority in the set never
      rises, whatever is ticked, revoked, granted or elevated. */
  lemma {:induction false} AuthorityIsConfined(
    owner: Option<Identity>, ops: seq<Op>, i: nat, j: nat, group: iset<Identity>, cap: nat)
    requires i <= j <= |ops|
    requires owner.Some? ==> owner.value !in group
    requires AtMost(At(owner, ops, i), group, cap)
    requires forall k :: |At(owner, ops, i).grants| <= k < |At(owner, ops, j).grants| ==>
               var g := At(owner, ops, j).grants[k]; g.subject in group ==> g.granter in group
    ensures AtMost(At(owner, ops, j), group, cap)
    decreases j - i
  {
    if i < j {
      var s := At(owner, ops, j - 1);
      RunAdvances(owner, ops, i, j - 1);
      RunAdvances(owner, ops, j - 1, j);
      Reachable(owner, ops[..j - 1]);
      AuthorityIsConfined(owner, ops, i, j - 1, group, cap);
      AtStep(owner, ops, j - 1);
      ConfinedStep(s, ops[j - 1], group, cap);
    }
  }

  // ---- what a request is answered, and what it appends ----

  /** The level is one there is, the window is still open, and the granter holds the level. */
  predicate Allowed(s: State, op: Op)
    requires Issues(op)
  {
    1 <= op.level <= 8 && s.now <= op.expiry && op.level <= s.EffAuth(op.granter)
  }

  /** An ordinary grant is issued exactly when it is allowed, an elevation exactly when it also raises its subject. A
      refusal names the first condition that fails, in the order level, window, granter, subject, with its numbers. */
  lemma IssuedIff(s: State, op: Op)
    requires Issues(op)
    ensures var r := Step(s, op).1;
            && (r.Ok? <==> Allowed(s, op) && (op.JitElevate? ==> s.EffAuth(op.subject) < op.level))
            && (r == Err(LevelOutOfRange(op.level)) <==> !(1 <= op.level <= 8))
            && (r == Err(ExpiryInPast(op.expiry, s.now)) <==> 1 <= op.level <= 8 && op.expiry < s.now)
            && (r == Err(ExceedsGranter(op.level, s.EffAuth(op.granter))) <==>
                1 <= op.level <= 8 && s.now <= op.expiry && s.EffAuth(op.granter) < op.level)
            && (r == Err(NotAnElevation(op.level, s.EffAuth(op.subject))) <==>
                Allowed(s, op) && op.JitElevate? && op.level <= s.EffAuth(op.subject))
    ensures Step(s, op).1.Err? ==> Step(s, op).0 == s
  {
  }

  /** The grant a request asks for, under an id. */
  ghost predicate Carries(g: Grant, op: Op, id: nat, cap: nat) {
    && Issues(op) && g.id == id && g.granter == op.granter && g.subject == op.subject && g.level == op.level
    && g.expiry == op.expiry && (g.kind == Jit <==> op.JitElevate?) && g.granterLevel == cap
  }

  /** An issued grant is the one asked for, at the end of the ledger, under the id replied, stamped with what its granter
      then held; nothing else of the ledger changes. */
  lemma IssueAppends(owner: Option<Identity>, ops: seq<Op>, op: Op)
    requires Issues(op) && Step(Run(owner, ops), op).1.Ok?
    ensures var s, t, r := Run(owner, ops), Step(Run(owner, ops), op).0, Step(Run(owner, ops), op).1;
            && |t.grants| == |s.grants| + 1 && t.grants[..|s.grants|] == s.grants
            && r.value == |t.grants| && Carries(t.grants[|s.grants|], op, r.value, s.EffAuth(op.granter))
            && t.revoked == s.revoked && t.now == s.now && t.owner == s.owner
  {
    Reachable(owner, ops);
  }

  /** Grant `k` of every run carries the request of the step that issued it. */
  lemma GrantIsAsRequested(owner: Option<Identity>, ops: seq<Op>, i: nat, k: nat)
    requires IssuedAt(owner, ops, i, k)
    ensures k < |Run(owner, ops).grants|
    ensures Carries(Run(owner, ops).grants[k], ops[i], k + 1, At(owner, ops, i).EffAuth(ops[i].granter))
  {
    AtStep(owner, ops, i);
    Reachable(owner, ops[..i]);
    GrantIsFinal(owner, ops, i + 1, k);
    IssueAppends(owner, ops[..i], ops[i]);
  }

  /** An id is revoked exactly when some step revoked it, and the clock stands at the greatest tick asked for. */
  lemma {:induction false} RestIsHistory(owner: Option<Identity>, ops: seq<Op>, id: nat)
    ensures id in Run(owner, ops).revoked <==> Revoke(id) in ops
    ensures forall t: nat :: TickTo(t) in ops ==> t <= Run(owner, ops).now
    ensures Run(owner, ops).now == 0 || TickTo(Run(owner, ops).now) in ops
  {
    if ops != [] {
      var n := |ops| - 1;
      RestIsHistory(owner, ops[..n], id);
      RestStep(Run(owner, ops[..n]), ops[n], id);
      assert ops == ops[..n] + [ops[n]];
    }
  }

  lemma RestStep(s: State, op: Op, id: nat)
    ensures id in Step(s, op).0.revoked <==> id in s.revoked || op == Revoke(id)
    ensures Step(s, op).0.now == if op.TickTo? && op.t > s.now then op.t else s.now
  {
  }

  /** Step `i` issued grant `k` to the identity at this level or more, its window is open and nobody revoked its id. */
  ghost predicate Confers(owner: Option<Identity>, ops: seq<Op>, i: nat, k: nat, n: Identity, level: nat) {
    && IssuedAt(owner, ops, i, k) && ops[i].subject == n && ops[i].level >= level
    && Run(owner, ops).now <= ops[i].expiry && Revoke(k + 1) !in ops
  }

  lemma ConfersIff(owner: Option<Identity>, ops: seq<Op>, i: nat, k: nat, n: Identity, level: nat)
    requires IssuedAt(owner, ops, i, k)
    ensures k < |Run(owner, ops).grants|
    ensures var s := Run(owner, ops);
            Confers(owner, ops, i, k, n, level) <==>
            s.grants[k].subject == n && s.grants[k].level >= level && s.LiveAt(k)
  {
    GrantIsAsRequested(owner, ops, i, k);
    RestIsHistory(owner, ops, k + 1);
  }

  /** An identity holds a level exactly as the owner, up to 8, or through a grant the run issued to it at that level or
      more, still within its window and never revoked. */
  lemma AuthorityIsHistory(owner: Option<Identity>, ops: seq<Op>, n: Identity, level: nat)
    requires level >= 1
    ensures Run(owner, ops).EffAuth(n) >= level <==>
            if owner == Some(n) then level <= 8 else exists i: nat, k: nat :: Confers(owner, ops, i, k, n, level)
  {
    var s := Run(owner, ops);
    Reachable(owner, ops);
    LiveMaxIsMax(s.grants, n, s.now, s.revoked);
    if owner != Some(n) {
      if s.EffAuth(n) >= level {
        var k: nat :| k < |s.grants| && s.grants[k].subject == n && s.LiveAt(k) && s.grants[k].level == s.EffAuth(n);
        assert ops[..|ops|] == ops;
        IssueStep(owner, ops, |ops|, k);
        var i: nat :| i < |ops| && IssuedAt(owner, ops, i, k);
        ConfersIff(owner, ops, i, k, n, level);
        assert Confers(owner, ops, i, k, n, level);
      }
      if i: nat, k: nat :| Confers(owner, ops, i, k, n, level) {
        ConfersIff(owner, ops, i, k, n, level);
      }
    }
  }

  // ---- a fresh grant, and when it takes effect ----

  function Max(a: nat, b: nat): nat {
    if a < b then b else a
  }

  /** A fresh grant of either kind raises its subject to its level, if the subject held less, exactly when its id had not
      been revoked before being allocated and the subject is not the owner; nobody else's authority changes. */
  lemma GrantTakesEffectIff(owner: Option<Identity>, ops: seq<Op>, op: Op)
    requires Issues(op) && Step(Run(owner, ops), op).1.Ok?
    ensures var s, t, id := Run(owner, ops), Step(Run(owner, ops), op).0, Step(Run(owner, ops), op).1.value;
            && (t.Admits(id) <==> Revoke(id) !in ops)
            && t.EffAuth(op.subject) ==
               (if Revoke(id) in ops then s.EffAuth(op.subject) else Max(s.EffAuth(op.subject), op.level))
            && forall n :: n != op.subject ==> t.EffAuth(n) == s.EffAuth(n)
  {
    var s, t := Run(owner, ops), Step(Run(owner, ops), op).0;
    IssueAppends(owner, ops, op);
    IssuedIff(s, op);
    RestIsHistory(owner, ops, s.nextId);
    Reachable(owner, ops);
    assert (ops + [op])[..|ops|] == ops;
    assert t == Run(owner, ops + [op]);
    AdmitsIffLive(owner, ops + [op], s.nextId);
    assert t.grants[..|t.grants| - 1] == s.grants;
  }

  /** A successful elevation is capped by the granter, strictly above the subject, and raises the
      subject to its level exactly when its id had not been revoked before being allocated;
      otherwise it changes nobody's authority. */
  lemma ElevationTakesEffectIff(owner: Option<Identity>, ops: seq<Op>, op: Op)
    requires op.JitElevate? && Step(Run(owner, ops), op).1.Ok?
    ensures var s, t, id := Run(owner, ops), Step(Run(owner, ops), op).0, Step(Run(owner, ops), op).1.value;
            && s.EffAuth(op.subject) < op.level <= s.EffAuth(op.granter)
            && (t.Admits(id) <==> id !in s.revoked)
            && t.EffAuth(op.subject) == (if id in s.revoked then s.EffAuth(op.subject) else op.level)
            && forall n :: n != op.subject ==> t.EffAuth(n) == s.EffAuth(n)
  {
    IssuedIff(Run(owner, ops), op);
    GrantTakesEffectIff(owner, ops, op);
    RestIsHistory(owner, ops, Step(Run(owner, ops), op).1.value);
  }

  /** Revocation accepts ids that are not allocated yet, so a fresh elevation can be born dead. */
  lemma BornDead()
    ensures var s := Run(Some("owner"), [Revoke(1), JitElevate("owner", "carol", 6, 10)]);
            |s.grants| == 1 && s.grants[0].subject == "carol" && !s.Admits(1) && s.EffAuth("carol") == 0
  {
    var first := [Revoke(1)];
    var both := [Revoke(1), JitElevate("owner", "carol", 6, 10)];
    assert both[..1] == first && first[..0] == [];
    var s := Run(Some("owner"), both);
    assert s.grants == [Grant(1, "owner", "carol", 6, 10, Jit, 8)];
    assert s.grants[..0] == [];
  }

  // ---- the object that is updated in place ----

  class AuthorityLedger {
    var grants: seq<Grant>
    var revoked: set<nat>
    var now: nat
    var nextId: nat
    const owner: Option<Identity>

    ghost function Abstract(): State
      reads this
    {
      State(grants, revoked, now, nextId, owner)
    }

    constructor (owner: Option<Identity>)
      ensures Abstract() == Init(owner)
    {
      this.owner := owner;
      grants, revoked, now, nextId := [], {}, 0, 1;
    }

    method TickTo(t: nat)
      modifies this
      ensures Abstract() == Step(old(Abstract()), Op.TickTo(t)).0
    {
      if t > now { now := t; }
    }

    function EffAuth(n: Identity): (level: nat)
      reads this
      ensures level == Abstract().EffAuth(n)
    {
      if owner == Some(n) then MAX_LEVEL else LiveMax(grants, n, now, revoked)
    }

    method IssueGrant(granter: Identity, subject: Identity, level: nat, expiry: nat) returns (r: Reply)
      modifies this
      ensures (Abstract(), r) == Step(old(Abstract()), Op.IssueGrant(granter, subject, level, expiry))
    {
      if level == 0 || level > MAX_LEVEL { return Err(LevelOutOfRange(level)); }
      if expiry < now { return Err(ExpiryInPast(expiry, now)); }
      var granterLevel := EffAuth(granter);
      if level > granterLevel { return Err(ExceedsGranter(level, granterLevel)); }
      var id := Push(granter, subject, level, expiry, Ordinary, granterLevel);
      return Ok(id);
    }

    method JitElevate(granter: Identity, subject: Identity, level: nat, expiry: nat) returns (r: Reply)
      modifies this
      ensures (Abstract(), r) == Step(old(Abstract()), Op.JitElevate(granter, subject, level, expiry))
    {
      if level == 0 || level > MAX_LEVEL { return Err(LevelOutOfRange(level)); }
      if expiry < now { return Err(ExpiryInPast(expiry, now)); }
      var granterLevel := EffAuth(granter);
      if level > granterLevel { return Err(ExceedsGranter(level, granterLevel)); }
      var subjectLevel := EffAuth(subject);
      if level <= subjectLevel { return Err(NotAnElevation(level, subjectLevel)); }
      var id := Push(granter, subject, level, expiry, Jit, granterLevel);
      return Ok(id);
    }

    method Push(granter: Identity, subject: Identity, level: nat, expiry: nat, kind: GrantKind, granterLevel: nat)
      returns (id: nat)
      modifies this
      ensures (Abstract(), Ok(id)) == Pushed(old(Abstract()), granter, subject, level, expiry, kind, granterLevel)
    {
      id := nextId;
      nextId := nextId + 1;
      grants := grants + [Grant(id, granter, subject, level, expiry, kind, granterLevel)];
    }

    method Revoke(id: nat)
      modifies this
      ensures Abstract() == Step(old(Abstract()), Op.Revoke(id)).0
    {
      revoked := revoked + {id};
    }
  }
}
