/** The in-cell rolling migration: an old and a new view over one append-only log, per-member
    declared support, a logical clock with liveness timeouts, and a one-way cutover. */
module Migration {
  import opened Wrappers
  import opened Bytes
  import opened Compat

  type NodeId = string
  type Payload = seq<byte>

  /** A content-addressed log is the set of payloads appended to it. */
  type OpLog = set<Payload>

  datatype ViewChoice = Old | New

  datatype MigrationError = NotReady | AlreadyBuilding

  datatype Config = Config(surface: Surface, target: nat, window: nat, livenessTimeout: nat, initial: set<NodeId>)

  datatype State = State(
    members: set<NodeId>,
    oldLog: OpLog,
    newLog: Option<OpLog>,
    declared: set<NodeId>,
    lastSeen: map<NodeId, nat>,
    now: nat,
    cutOver: bool)
  {
    predicate IsLive(c: Config, node: NodeId) {
      node in lastSeen && (if now >= lastSeen[node] then now - lastSeen[node] else 0) <= c.livenessTimeout
    }

    function LiveMembers(c: Config): set<NodeId> {
      set m | m in members && IsLive(c, m)
    }

    predicate ReadyForCutover(c: Config) {
      cutOver || (newLog.Some? && LiveMembers(c) <= declared)
    }

    function ViewFor(node: NodeId): Option<ViewChoice> {
      if node !in members then None
      else if cutOver then Some(New)
      else match newLog
           case None => Some(Old)
           case Some(_) => if node in declared then Some(New) else Some(Old)
    }

    function ReadView(node: NodeId): Option<OpLog> {
      match ViewFor(node)
      case None => None
      case Some(Old) => Some(oldLog)
      case Some(New) => newLog
    }
  }

  datatype Op =
    | AddMember(node: NodeId)
    | Append(payload: Payload)
    | BeginBuild
    | Declare(node: NodeId, version: nat)
    | Heartbeat(node: NodeId)
    | AdvanceTime(tick: nat)
    | AttemptCutover

  datatype Error = Migration(cause: MigrationError) | Negotiation(refusal: NegotiationError)

  type Reply = Result<Unit, Error>

  function Init(c: Config): State {
    State(c.initial, {}, None, {}, map m | m in c.initial :: 0, 0, false)
  }

  function Heard(s: State, node: NodeId): State {
    s.(lastSeen := s.lastSeen[node := s.now])
  }

  /** One operation of the coordinator: the new state and the reply. */
  function Step(c: Config, s: State, op: Op): (State, Reply) {
    match op
    case AddMember(node) => (Heard(s, node).(members := s.members + {node}), Ok(Unit))
    case Append(payload) =>
      (s.(oldLog := s.oldLog + {payload},
          newLog := if s.newLog.Some? then Some(s.newLog.value + {payload}) else None), Ok(Unit))
    case BeginBuild =>
      if s.newLog.Some? then (s, Err(Migration(AlreadyBuilding))) else (s.(newLog := Some(s.oldLog)), Ok(Unit))
    case Declare(node, version) =>
      var heard := Heard(s, node);
      var negotiated := NegotiateSurface(c.surface, c.target, version, c.window);
      if negotiated.Err? then (heard, Err(Negotiation(negotiated.error)))
      else (heard.(declared := s.declared + {node}), Ok(Unit))
    case Heartbeat(node) => (Heard(s, node), Ok(Unit))
    case AdvanceTime(tick) => (if tick > s.now then s.(now := tick) else s, Ok(Unit))
    case AttemptCutover =>
      if !s.ReadyForCutover(c) then (s, Err(Migration(NotReady)))
      else if s.cutOver then (s, Ok(Unit))
      else (s.(cutOver := true, oldLog := {}), Ok(Unit))
  }

  function Run(c: Config, ops: seq<Op>): State {
    if ops == [] then Init(c) else Step(c, Run(c, ops[..|ops| - 1]), ops[|ops| - 1]).0
  }

  function At(c: Config, ops: seq<Op>, i: nat): State
    requires i <= |ops|
  {
    Run(c, ops[..i])
  }

  lemma AtStep(c: Config, ops: seq<Op>, i: nat)
    requires i < |ops|
    ensures At(c, ops, i + 1) == Step(c, At(c, ops, i), ops[i]).0
  {
    assert ops[..i + 1][..i] == ops[..i];
  }

  // ---- no member is orphaned, and nobody misses an operation ----

  /** Every payload appended since the start. */
  function Appended(ops: seq<Op>): OpLog {
    set i | 0 <= i < |ops| && ops[i].Append? :: ops[i].payload
  }

  /** Both live views hold exactly `all`; the old one may be reclaimed after the cutover, which
      needs a built new view. Every tracked member has been heard of, never in the future. */
  ghost predicate Serves(s: State, all: OpLog) {
    && (!s.cutOver ==> s.oldLog == all)
    && (s.newLog.Some? ==> s.newLog.value == all)
    && (s.cutOver ==> s.newLog.Some?)
    && s.members <= s.lastSeen.Keys
    && (forall m :: m in s.lastSeen ==> s.lastSeen[m] <= s.now)
  }

  lemma {:induction false} AlwaysServes(c: Config, ops: seq<Op>)
    ensures Serves(Run(c, ops), Appended(ops))
  {
    if ops == [] {
    } else {
      var before, last := ops[..|ops| - 1], ops[|ops| - 1];
      AlwaysServes(c, before);
      assert Appended(ops) == Appended(before) + (if last.Append? then {last.payload} else {}) by {
        assert forall i :: 0 <= i < |before| ==> ops[i] == before[i];
        if last.Append? { assert ops[|before|] == last; }
      }
    }
  }

  /** In every reachable state every tracked member is served a view, and that view holds exactly
      the payloads appended since the start; an untracked node is served none. */
  lemma EveryMemberReadsEverything(c: Config, ops: seq<Op>, node: NodeId)
    ensures Run(c, ops).ReadView(node) ==
            if node in Run(c, ops).members then Some(Appended(ops)) else None
  {
    AlwaysServes(c, ops);
  }

  // ---- views only move forward ----

  /** The one-way facts of a step. */
  ghost predicate Advances(s: State, t: State) {
    && s.members <= t.members
    && s.declared <= t.declared
    && (s.newLog.Some? ==> t.newLog.Some?)
    && (s.cutOver ==> t.cutOver)
    && s.now <= t.now
  }

  lemma {:induction false} RunAdvances(c: Config, ops: seq<Op>, i: nat, j: nat)
    requires i <= j <= |ops|
    ensures Advances(At(c, ops, i), At(c, ops, j))
    decreases j - i
  {
    if i < j {
      RunAdvances(c, ops, i, j - 1);
      AtStep(c, ops, j - 1);
    }
  }

  /** A tracked member stays tracked, and once served the new view it is never sent back. */
  lemma ViewNeverGoesBack(c: Config, ops: seq<Op>, i: nat, j: nat, node: NodeId)
    requires i <= j <= |ops|
    ensures At(c, ops, i).ViewFor(node).Some? ==> At(c, ops, j).ViewFor(node).Some?
    ensures At(c, ops, i).ViewFor(node) == Some(New) ==> At(c, ops, j).ViewFor(node) == Some(New)
  {
    RunAdvances(c, ops, i, j);
    AlwaysServes(c, ops[..i]);
  }

  // ---- liveness is what the run heard ----

  /** Step `i` is a sign of life of `node`. */
  predicate Touches(op: Op, node: NodeId) {
    (op.AddMember? || op.Declare? || op.Heartbeat?) && op.node == node
  }

  /** Step `i` named the node, when the clock stood at `tick`. */
  ghost predicate HeardAt(c: Config, ops: seq<Op>, i: nat, node: NodeId, tick: nat) {
    i < |ops| && Touches(ops[i], node) && At(c, ops, i).now == tick
  }

  lemma SeenStep(c: Config, s: State, op: Op, node: NodeId)
    ensures var t := Step(c, s, op).0;
            if Touches(op, node) then node in t.lastSeen && t.lastSeen[node] == s.now
            else (node in t.lastSeen <==> node in s.lastSeen) &&
                 (node in s.lastSeen ==> t.lastSeen[node] == s.lastSeen[node])
  {
  }

  /** The recorded sign of life is the latest one of the run: some step (or the start, at tick 0)
      gave it, and none gave a later one. */
  lemma {:induction false} LastSeenIsLatest(c: Config, ops: seq<Op>, node: NodeId)
    ensures var s := Run(c, ops);
            && (node in c.initial ==> node in s.lastSeen)
            && (node in s.lastSeen ==>
                  (node in c.initial && s.lastSeen[node] == 0) || exists i: nat :: HeardAt(c, ops, i, node, s.lastSeen[node]))
            && forall i: nat, tick: nat :: HeardAt(c, ops, i, node, tick) ==> node in s.lastSeen && tick <= s.lastSeen[node]
  {
    if ops != [] {
      var before, last := ops[..|ops| - 1], ops[|ops| - 1];
      LastSeenIsLatest(c, before, node);
      SeenStep(c, Run(c, before), last, node);
      forall i: nat, tick: nat | i < |before|
        ensures HeardAt(c, ops, i, node, tick) <==> HeardAt(c, before, i, node, tick)
        ensures HeardAt(c, ops, i, node, tick) ==> tick <= Run(c, before).now
      {
        assert before[..i] == ops[..i];
        RunAdvances(c, ops, i, |before|);
      }
      if Touches(last, node) {
        assert HeardAt(c, ops, |before|, node, Run(c, before).now);
      }
    }
  }

  /** A node is live exactly when the run heard of it within the timeout: through an operation
      naming it, or as an initial member at tick 0. */
  lemma LiveIffHeardRecently(c: Config, ops: seq<Op>, node: NodeId)
    ensures var now := Run(c, ops).now;
            Run(c, ops).IsLive(c, node) <==>
            || (node in c.initial && now <= c.livenessTimeout)
            || exists i: nat, tick: nat :: HeardAt(c, ops, i, node, tick) && now <= tick + c.livenessTimeout
  {
    LastSeenIsLatest(c, ops, node);
    AlwaysServes(c, ops);
  }

  // ---- the cutover: when it happens, and why it cannot be blocked forever ----

  /** Every tracked member declared support, or has been silent for longer than the timeout. */
  ghost predicate Unblocked(c: Config, s: State) {
    forall m :: m in s.members ==> m in s.declared || (m in s.lastSeen && s.lastSeen[m] + c.livenessTimeout < s.now)
  }

  lemma ReadyIff(c: Config, ops: seq<Op>)
    ensures Run(c, ops).ReadyForCutover(c) <==>
            Run(c, ops).cutOver || (Run(c, ops).newLog.Some? && Unblocked(c, Run(c, ops)))
  {
    AlwaysServes(c, ops);
    var s := Run(c, ops);
    forall m | m in s.members
      ensures m in s.LiveMembers(c) <==> !(s.lastSeen[m] + c.livenessTimeout < s.now)
    {
    }
  }

  /** Step `i` attempts the cutover with the new view built and no live member undeclared. */
  ghost predicate SafeAttempt(c: Config, ops: seq<Op>, i: nat) {
    && i < |ops| && ops[i].AttemptCutover? && At(c, ops, i).newLog.Some?
    && At(c, ops, i).LiveMembers(c) <= At(c, ops, i).declared
  }

  lemma CutStep(c: Config, s: State, op: Op)
    ensures Step(c, s, op).0.cutOver <==>
            s.cutOver || (op.AttemptCutover? && s.newLog.Some? && s.LiveMembers(c) <= s.declared)
  {
  }

  /** The run has cut over exactly when some attempt was safe. */
  lemma {:induction false} CutOverIffSafeAttempt(c: Config, ops: seq<Op>)
    ensures Run(c, ops).cutOver <==> exists i: nat :: SafeAttempt(c, ops, i)
  {
    if ops != [] {
      var before := ops[..|ops| - 1];
      CutOverIffSafeAttempt(c, before);
      CutStep(c, Run(c, before), ops[|ops| - 1]);
      forall i: nat | i < |before|
        ensures SafeAttempt(c, ops, i) <==> SafeAttempt(c, before, i)
      {
        assert before[..i] == ops[..i];
      }
      assert SafeAttempt(c, ops, |before|) <==>
             ops[|before|].AttemptCutover? && Run(c, before).newLog.Some? &&
             Run(c, before).LiveMembers(c) <= Run(c, before).declared;
    }
  }

  /** A step that neither adds a member nor carries a sign of life of an undeclared one. */
  predicate Silent(s: State, op: Op) {
    !op.AddMember? && (op.Declare? || op.Heartbeat? ==> op.node in s.declared || op.node !in s.members)
  }

  /** From any state with the new view built, whatever else happens, if nobody is added and the
      members still undeclared stay silent, then moving the clock past their last sign of life plus
      the timeout makes a cutover attempt succeed. */
  lemma {:induction false} SilentMembersCannotBlock(c: Config, ops: seq<Op>, i: nat)
    requires i <= |ops|
    requires At(c, ops, i).newLog.Some?
    requires forall k :: i <= k < |ops| ==> Silent(At(c, ops, i), ops[k])
    requires forall m :: m in At(c, ops, i).members && m !in At(c, ops, i).declared ==>
               m in At(c, ops, i).lastSeen && At(c, ops, i).lastSeen[m] + c.livenessTimeout < Run(c, ops).now
    ensures Step(c, Run(c, ops), AttemptCutover).1 == Ok(Unit)
    ensures forall m :: m in Run(c, ops).members ==> Step(c, Run(c, ops), AttemptCutover).0.ViewFor(m) == Some(New)
  {
    assert ops[..|ops|] == ops;
    SilenceKeeps(c, ops, i, |ops|);
    RunAdvances(c, ops, i, |ops|);
    ReadyIff(c, ops);
  }

  lemma {:induction false} SilenceKeeps(c: Config, ops: seq<Op>, i: nat, j: nat)
    requires i <= j <= |ops|
    requires forall k :: i <= k < j ==> Silent(At(c, ops, i), ops[k])
    ensures At(c, ops, j).members == At(c, ops, i).members
    ensures forall m :: m in At(c, ops, i).members && m !in At(c, ops, i).declared ==>
              (m in At(c, ops, j).lastSeen <==> m in At(c, ops, i).lastSeen)
    ensures forall m :: m in At(c, ops, i).members && m !in At(c, ops, i).declared && m in At(c, ops, i).lastSeen ==>
              At(c, ops, j).lastSeen[m] == At(c, ops, i).lastSeen[m]
    decreases j - i
  {
    if i < j {
      SilenceKeeps(c, ops, i, j - 1);
      AtStep(c, ops, j - 1);
    }
  }

  // ---- the whole machine read off its operations ----

  /** The greatest tick the clock was moved to. */
  function Clock(ops: seq<Op>): nat {
    if ops == [] then 0
    else
      var before, last := Clock(ops[..|ops| - 1]), ops[|ops| - 1];
      if last.AdvanceTime? && last.tick > before then last.tick else before
  }

  ghost predicate Ticked(ops: seq<Op>, i: nat, tick: nat) {
    i < |ops| && ops[i] == AdvanceTime(tick)
  }

  lemma {:induction false} ClockIsGreatest(c: Config, ops: seq<Op>)
    ensures Run(c, ops).now == Clock(ops)
    ensures forall i: nat, tick: nat :: Ticked(ops, i, tick) ==> tick <= Clock(ops)
    ensures Clock(ops) == 0 || exists i: nat :: Ticked(ops, i, Clock(ops))
  {
    if ops != [] {
      var before := ops[..|ops| - 1];
      ClockIsGreatest(c, before);
      forall i: nat, tick: nat | i < |before|
        ensures Ticked(ops, i, tick) <==> Ticked(before, i, tick)
      {
      }
      if Clock(ops) != Clock(before) {
        assert Ticked(ops, |before|, Clock(ops));
      } else if Clock(before) != 0 {
        var i: nat :| Ticked(before, i, Clock(before));
        assert Ticked(ops, i, Clock(ops));
      }
    }
  }

  predicate Tracked(c: Config, ops: seq<Op>, node: NodeId) {
    node in c.initial || AddMember(node) in ops
  }

  predicate Built(ops: seq<Op>) {
    BeginBuild in ops
  }

  /** The versions lie within the window of each other. */
  predicate WithinWindow(c: Config, version: nat) {
    version <= c.target + c.window && c.target <= version + c.window
  }

  /** Step `i` declares a version of the node that the target is compatible with. */
  ghost predicate DeclaresAt(c: Config, ops: seq<Op>, i: nat, node: NodeId) {
    i < |ops| && ops[i].Declare? && ops[i].node == node && WithinWindow(c, ops[i].version)
  }

  ghost predicate HasDeclared(c: Config, ops: seq<Op>, node: NodeId) {
    exists i: nat :: DeclaresAt(c, ops, i, node)
  }

  lemma SetStep(c: Config, s: State, op: Op, node: NodeId)
    ensures var t := Step(c, s, op).0;
            && (node in t.members <==> node in s.members || op == AddMember(node))
            && (t.newLog.Some? <==> s.newLog.Some? || op.BeginBuild?)
            && (node in t.declared <==> node in s.declared || (op.Declare? && op.node == node && WithinWindow(c, op.version)))
  {
  }

  lemma HasDeclaredGrows(c: Config, ops: seq<Op>, node: NodeId)
    requires ops != []
    ensures HasDeclared(c, ops, node) <==> HasDeclared(c, ops[..|ops| - 1], node) || DeclaresAt(c, ops, |ops| - 1, node)
  {
    var before := ops[..|ops| - 1];
    forall i: nat | i < |before|
      ensures DeclaresAt(c, before, i, node) <==> DeclaresAt(c, ops, i, node)
    {
    }
  }

  /** Who is tracked, whether the new view is built and who is declared are what the run asked for: a node is declared
      exactly when some step declared a version of it within the window. */
  lemma {:induction false} SetsAreHistory(c: Config, ops: seq<Op>, node: NodeId)
    ensures node in Run(c, ops).members <==> Tracked(c, ops, node)
    ensures Run(c, ops).newLog.Some? <==> Built(ops)
    ensures node in Run(c, ops).declared <==> HasDeclared(c, ops, node)
  {
    if ops != [] {
      var n := |ops| - 1;
      SetsAreHistory(c, ops[..n], node);
      SetStep(c, Run(c, ops[..n]), ops[n], node);
      HasDeclaredGrows(c, ops, node);
      assert ops == ops[..n] + [ops[n]];
    }
  }

  /** A declaration is accepted exactly within the window; otherwise the refusal carries the two versions. */
  lemma DeclareReplies(c: Config, ops: seq<Op>, node: NodeId, version: nat)
    ensures Step(c, Run(c, ops), Declare(node, version)).1 ==
            if WithinWindow(c, version) then Ok(Unit)
            else Err(Negotiation(Refused(c.surface, c.target, version, c.window)))
  {
  }

  /** A sign of life: an operation naming the node, at what the clock then stood at, or the start for an initial member. */
  ghost predicate AliveSince(c: Config, ops: seq<Op>, node: NodeId, tick: nat) {
    || (node in c.initial && tick == 0)
    || exists i: nat :: i < |ops| && Touches(ops[i], node) && Clock(ops[..i]) == tick
  }

  ghost predicate Alive(c: Config, ops: seq<Op>, node: NodeId) {
    exists tick: nat :: AliveSince(c, ops, node, tick) && Clock(ops) <= tick + c.livenessTimeout
  }

  lemma AliveIff(c: Config, ops: seq<Op>, node: NodeId)
    ensures Run(c, ops).IsLive(c, node) <==> Alive(c, ops, node)
  {
    LiveIffHeardRecently(c, ops, node);
    ClockIsGreatest(c, ops);
    forall i: nat, tick: nat
      ensures HeardAt(c, ops, i, node, tick) <==> i < |ops| && Touches(ops[i], node) && Clock(ops[..i]) == tick
    {
      if i < |ops| {
        ClockIsGreatest(c, ops[..i]);
      }
    }
    if node in c.initial && Clock(ops) <= c.livenessTimeout {
      assert AliveSince(c, ops, node, 0);
    }
    if i: nat, tick: nat :| HeardAt(c, ops, i, node, tick) && Clock(ops) <= tick + c.livenessTimeout {
      assert AliveSince(c, ops, node, tick);
    }
    if Alive(c, ops, node) {
      var tick: nat :| AliveSince(c, ops, node, tick) && Clock(ops) <= tick + c.livenessTimeout;
      if !(node in c.initial && tick == 0) {
        var i: nat :| i < |ops| && Touches(ops[i], node) && Clock(ops[..i]) == tick;
        assert HeardAt(c, ops, i, node, tick);
      }
    }
  }

  /** The new view is built and every tracked member heard of within the timeout has declared itself. */
  ghost predicate Safe(c: Config, ops: seq<Op>) {
    Built(ops) && forall m :: Tracked(c, ops, m) && Alive(c, ops, m) ==> HasDeclared(c, ops, m)
  }

  lemma SafeIff(c: Config, ops: seq<Op>)
    ensures Safe(c, ops) <==> Run(c, ops).newLog.Some? && Run(c, ops).LiveMembers(c) <= Run(c, ops).declared
  {
    SetsAreHistory(c, ops, "");
    forall m
      ensures m in Run(c, ops).LiveMembers(c) <==> Tracked(c, ops, m) && Alive(c, ops, m)
      ensures m in Run(c, ops).declared <==> HasDeclared(c, ops, m)
    {
      SetsAreHistory(c, ops, m);
      AliveIff(c, ops, m);
    }
  }

  /** Step `i` attempts the cutover in a safe state. */
  ghost predicate CutsAt(c: Config, ops: seq<Op>, i: nat) {
    i < |ops| && ops[i].AttemptCutover? && Safe(c, ops[..i])
  }

  ghost predicate HasCut(c: Config, ops: seq<Op>) {
    exists i: nat :: CutsAt(c, ops, i)
  }

  /** The run has cut over exactly when some step attempted it with the new view built and every live tracked member
      declared, all read off the operations before it. */
  lemma CutOverIffSafe(c: Config, ops: seq<Op>)
    ensures Run(c, ops).cutOver <==> HasCut(c, ops)
  {
    CutOverIffSafeAttempt(c, ops);
    forall i: nat
      ensures CutsAt(c, ops, i) <==> SafeAttempt(c, ops, i)
    {
      if i < |ops| {
        SafeIff(c, ops[..i]);
      }
    }
  }

  /** The view a node is served: none untracked; the new one after the cutover, or once built for a declared node; else
      the old one. */
  lemma ViewIsHistory(c: Config, ops: seq<Op>, node: NodeId)
    ensures Run(c, ops).ViewFor(node) ==
            if !Tracked(c, ops, node) then None
            else if HasCut(c, ops) || (Built(ops) && HasDeclared(c, ops, node)) then Some(New)
            else Some(Old)
  {
    SetsAreHistory(c, ops, node);
    CutOverIffSafe(c, ops);
    AlwaysServes(c, ops);
  }

  /** Starting a build is refused exactly once it was started; an attempt is refused exactly while the state is neither
      cut over nor safe. */
  lemma BuildAndCutReplies(c: Config, ops: seq<Op>)
    ensures Step(c, Run(c, ops), BeginBuild).1 == if Built(ops) then Err(Migration(AlreadyBuilding)) else Ok(Unit)
    ensures Step(c, Run(c, ops), AttemptCutover).1 ==
            if HasCut(c, ops) || Safe(c, ops) then Ok(Unit) else Err(Migration(NotReady))
  {
    SetsAreHistory(c, ops, "");
    CutOverIffSafe(c, ops);
    SafeIff(c, ops);
  }

  /** Step `j` appended the payload, and no cutover after it was the one that reclaimed the old log. */
  ghost predicate KeptInOld(c: Config, ops: seq<Op>, j: nat, payload: Payload) {
    j < |ops| && ops[j] == Append(payload) && (HasCut(c, ops) ==> HasCut(c, ops[..j]))
  }

  lemma HasCutGrows(c: Config, ops: seq<Op>)
    requires ops != []
    ensures HasCut(c, ops) <==> HasCut(c, ops[..|ops| - 1]) || CutsAt(c, ops, |ops| - 1)
  {
    var before := ops[..|ops| - 1];
    forall i: nat | i < |before|
      ensures CutsAt(c, before, i) <==> CutsAt(c, ops, i)
    {
      assert before[..i] == ops[..i];
    }
  }

  lemma OldStep(c: Config, s: State, op: Op, payload: Payload)
    ensures payload in Step(c, s, op).0.oldLog <==>
            op == Append(payload) || (payload in s.oldLog && !(op.AttemptCutover? && !s.cutOver && s.ReadyForCutover(c)))
  {
  }

  /** The old log holds what was appended, except that the cutover drops what came before it. */
  lemma {:induction false} OldLogIff(c: Config, ops: seq<Op>, payload: Payload)
    ensures payload in Run(c, ops).oldLog <==> exists j: nat :: KeptInOld(c, ops, j, payload)
  {
    if ops != [] {
      var n := |ops| - 1;
      var before, last := ops[..n], ops[n];
      OldLogIff(c, before, payload);
      OldStep(c, Run(c, before), last, payload);
      CutOverIffSafe(c, before);
      CutOverIffSafe(c, ops);
      HasCutGrows(c, ops);
      SafeIff(c, before);
      forall j: nat | j < n
        ensures KeptInOld(c, ops, j, payload) <==>
                KeptInOld(c, before, j, payload) && !(HasCut(c, ops) && !HasCut(c, before))
      {
        assert before[..j] == ops[..j];
        CutLasts(c, before, j);
      }
      if last == Append(payload) {
        assert KeptInOld(c, ops, n, payload);
      }
    }
  }

  lemma CutLasts(c: Config, ops: seq<Op>, j: nat)
    requires j <= |ops|
    ensures HasCut(c, ops[..j]) ==> HasCut(c, ops)
  {
    if i: nat :| CutsAt(c, ops[..j], i) {
      assert ops[..j][..i] == ops[..i];
      assert CutsAt(c, ops, i);
    }
  }

  // ---- the object that is updated in place ----

  class MigrationCoordinator {
    const config: Config
    var members: set<NodeId>
    var oldLog: OpLog
    var newLog: Option<OpLog>
    var declaredNewSupport: set<NodeId>
    var lastSeen: map<NodeId, nat>
    var now: nat
    var cutOver: bool

    ghost function Abstract(): State
      reads this
    {
      State(members, oldLog, newLog, declaredNewSupport, lastSeen, now, cutOver)
    }

    constructor (config: Config)
      ensures this.config == config && Abstract() == Init(config)
    {
      this.config := config;
      members, oldLog, newLog, declaredNewSupport := config.initial, {}, None, {};
      lastSeen, now, cutOver := map m | m in config.initial :: 0, 0, false;
    }

    method AddMember(node: NodeId)
      modifies this
      ensures Abstract() == Step(config, old(Abstract()), Op.AddMember(node)).0
    {
      lastSeen := lastSeen[node := now];
      members := members + {node};
    }

    method Append(payload: Payload)
      modifies this
      ensures Abstract() == Step(config, old(Abstract()), Op.Append(payload)).0
    {
      oldLog := oldLog + {payload};
      if newLog.Some? {
        newLog := Some(newLog.value + {payload});
      }
    }

    method BeginBuildNewView() returns (r: Reply)
      modifies this
      ensures (Abstract(), r) == Step(config, old(Abstract()), BeginBuild)
    {
      if newLog.Some? { return Err(Migration(AlreadyBuilding)); }
      newLog := Some(oldLog);
      return Ok(Unit);
    }

    method DeclareMemberVersion(node: NodeId, declared: nat) returns (r: Reply)
      modifies this
      ensures (Abstract(), r) == Step(config, old(Abstract()), Declare(node, declared))
    {
      Heartbeat(node);
      var negotiated := NegotiateSurface(config.surface, config.target, declared, config.window);
      if negotiated.Err? { return Err(Negotiation(negotiated.error)); }
      declaredNewSupport := declaredNewSupport + {node};
      return Ok(Unit);
    }

    method Heartbeat(node: NodeId)
      modifies this
      ensures Abstract() == Step(config, old(Abstract()), Op.Heartbeat(node)).0
    {
      lastSeen := lastSeen[node := now];
    }

    method AdvanceTime(tick: nat)
      modifies this
      ensures Abstract() == Step(config, old(Abstract()), Op.AdvanceTime(tick)).0
    {
      if tick > now { now := tick; }
    }

    method AttemptCutover() returns (r: Reply)
      modifies this
      ensures (Abstract(), r) == Step(config, old(Abstract()), Op.AttemptCutover)
    {
      var ready := ReadyForCutover();
      if !ready { return Err(Migration(NotReady)); }
      if !cutOver {
        cutOver := true;
        oldLog := {};
      }
      return Ok(Unit);
    }

    method ReadyForCutover() returns (ready: bool)
      ensures ready == Abstract().ReadyForCutover(config)
    {
      if cutOver { return true; }
      var live := set m | m in members && m in lastSeen &&
                    (if now >= lastSeen[m] then now - lastSeen[m] else 0) <= config.livenessTimeout;
      assert live == Abstract().LiveMembers(config);
      return newLog.Some? && forall m :: m in live ==> m in declaredNewSupport;
    }
  }
}
