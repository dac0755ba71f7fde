/** The cell group-key machine: membership, per-epoch sealed member sets, the rotation fence,
    placed objects, cross-cell grants and the naming pointer. */
module Cells {
  import opened Wrappers
  import opened Compat

  type NodeId = string
  type CellId = string
  type UserId = string
  type ObjectId = string
  type Root = string
  type Tag = string

  datatype SealScope = PerNode(nodes: set<NodeId>) | PerCell(cells: set<CellId>) | PerUser(users: set<UserId>)

  datatype VisClass = Public | CellEncrypted | RecipientSealed(scope: SealScope)

  datatype Mode = ReadOnly | ReadWrite

  datatype GrantScope = All | Tags(tags: set<Tag>) {
    predicate Covers(objTags: set<Tag>) {
      match this
      case All => true
      case Tags(t) => objTags * t != {}
    }
  }

  datatype Grant = Grant(user: UserId, mode: Mode, scope: GrantScope)

  datatype CellError =
    | RotationFence
    | MembershipPrecondition
    | AlreadyPlaced(obj: ObjectId)
    | GrantPrecondition
    | RootPrecondition(root: Root)
    | CompatRefused(cause: NegotiationError)

  type Reply = Result<Unit, CellError>

  datatype CellState = CellState(
    members: set<NodeId>,
    keyEpoch: nat,
    epochMembers: map<nat, set<NodeId>>,
    rotating: bool,
    objClass: map<ObjectId, VisClass>,
    objEpoch: map<ObjectId, nat>,
    objTags: map<ObjectId, set<Tag>>,
    placed: set<ObjectId>,
    grants: set<Grant>,
    published: set<Root>,
    namePtr: Option<Root>)
  {
    /** The single decryption decider, derived from the class and the sealed sets. */
    predicate NodeCanDecrypt(node: NodeId, obj: ObjectId) {
      && obj in placed
      && obj in objClass
      && match objClass[obj]
         case Public => true
         case CellEncrypted =>
           var epoch := if obj in objEpoch then objEpoch[obj] else 0;
           epoch in epochMembers && node in epochMembers[epoch]
         case RecipientSealed(PerNode(rcpt)) => node in rcpt
         case RecipientSealed(_) => false
    }

    function TagsOf(obj: ObjectId): set<Tag> {
      if obj in objTags then objTags[obj] else {}
    }

    predicate UserCanRead(user: UserId, obj: ObjectId) {
      exists g :: g in grants && g.user == user && g.scope.Covers(TagsOf(obj))
    }

    predicate UserCanWrite(user: UserId, obj: ObjectId) {
      exists g :: g in grants && g.user == user && g.mode == ReadWrite && g.scope.Covers(TagsOf(obj))
    }
  }

  datatype Op =
    | Admit(node: NodeId)
    | AdmitVersioned(node: NodeId, local: Versions, remote: Versions, required: seq<Surface>, window: nat)
    | Leave(node: NodeId)
    | BeginRotate
    | EndRotate
    | PlaceObject(obj: ObjectId, visClass: VisClass, tags: set<Tag>)
    | AddGrant(grant: Grant)
    | RevokeGrant(grant: Grant)
    | PublishRoot(root: Root)
    | SetNamePtr(root: Root)

  const FRESH := CellState({}, 0, map[0 := {}], false, map[], map[], map[], {}, {}, {}, None)

  /** The state with `members` sealed as the members of `epoch`, now current. */
  function Sealed(s: CellState, members: set<NodeId>, epoch: nat): CellState {
    s.(members := members, keyEpoch := epoch, epochMembers := s.epochMembers[epoch := members])
  }

  function Placed(s: CellState, obj: ObjectId, visClass: VisClass, tags: set<Tag>): CellState {
    s.(objClass := s.objClass[obj := visClass], objEpoch := s.objEpoch[obj := s.keyEpoch],
       objTags := s.objTags[obj := tags], placed := s.placed + {obj})
  }

  function StepAdmit(s: CellState, node: NodeId): (CellState, Reply) {
    if s.rotating then (s, Err(RotationFence))
    else if node in s.members then (s, Err(MembershipPrecondition))
    else (Sealed(s, s.members + {node}, s.keyEpoch), Ok(Unit))
  }

  /** One operation of the cell: the new state and the reply. */
  function Step(s: CellState, op: Op): (CellState, Reply) {
    match op
    case Admit(node) => StepAdmit(s, node)
    case AdmitVersioned(node, local, remote, required, window) =>
      var negotiated := Negotiated(local, remote, required, window);
      if negotiated.Err? then (s, Err(CompatRefused(negotiated.error))) else StepAdmit(s, node)
    case Leave(node) =>
      if s.rotating then (s, Err(RotationFence))
      else if node !in s.members then (s, Err(MembershipPrecondition))
      else (Sealed(s, s.members - {node}, s.keyEpoch + 1), Ok(Unit))
    case BeginRotate =>
      if s.rotating then (s, Err(RotationFence)) else (s.(rotating := true), Ok(Unit))
    case EndRotate =>
      if !s.rotating then (s, Err(RotationFence))
      else (Sealed(s, s.members, s.keyEpoch + 1).(rotating := false), Ok(Unit))
    case PlaceObject(obj, visClass, tags) =>
      if s.rotating then (s, Err(RotationFence))
      else if obj in s.placed then (s, Err(AlreadyPlaced(obj)))
      else (Placed(s, obj, visClass, tags), Ok(Unit))
    case AddGrant(grant) =>
      if grant in s.grants then (s, Err(GrantPrecondition)) else (s.(grants := s.grants + {grant}), Ok(Unit))
    case RevokeGrant(grant) =>
      if grant !in s.grants then (s, Err(GrantPrecondition)) else (s.(grants := s.grants - {grant}), Ok(Unit))
    case PublishRoot(root) =>
      if root in s.published then (s, Err(RootPrecondition(root)))
      else (s.(published := s.published + {root}), Ok(Unit))
    case SetNamePtr(root) =>
      if root !in s.published then (s, Err(RootPrecondition(root))) else (s.(namePtr := Some(root)), Ok(Unit))
  }

  /** The state after a whole run from a new cell. */
  function Run(ops: seq<Op>): CellState {
    if ops == [] then FRESH else Step(Run(ops[..|ops| - 1]), ops[|ops| - 1]).0
  }

  /** The state a run passes through after its first `i` operations. */
  function At(ops: seq<Op>, i: nat): CellState
    requires i <= |ops|
  {
    Run(ops[..i])
  }

  lemma AtStep(ops: seq<Op>, i: nat)
    requires i < |ops|
    ensures At(ops, i + 1) == Step(At(ops, i), ops[i]).0
  {
    assert ops[..i + 1][..i] == ops[..i];
  }

  lemma AtPrefix(ops: seq<Op>, k: nat, i: nat)
    requires i <= k <= |ops|
    ensures At(ops[..k], i) == At(ops, i)
  {
    assert ops[..k][..i] == ops[..i];
  }

  // ---- what every step keeps ----

  /** Epochs `0..keyEpoch` are sealed, the current one to the current members. */
  ghost predicate KeysConsistent(s: CellState) {
    && (forall e: nat :: e in s.epochMembers <==> e <= s.keyEpoch)
    && s.epochMembers[s.keyEpoch] == s.members
  }

  /** A placed object carries a class, tags and an epoch already reached; a set pointer resolves. */
  ghost predicate ObjectsConsistent(s: CellState) {
    && s.objClass.Keys == s.placed && s.objEpoch.Keys == s.placed && s.objTags.Keys == s.placed
    && (forall o :: o in s.objEpoch ==> s.objEpoch[o] <= s.keyEpoch)
    && (s.namePtr.Some? ==> s.namePtr.value in s.published)
  }

  ghost predicate Consistent(s: CellState) {
    KeysConsistent(s) && ObjectsConsistent(s)
  }

  /** How a step may move the keys: the epoch never goes back, sealed sets of past epochs are
      frozen, and the current sealed set only grows until the epoch is over. */
  ghost predicate KeysAdvance(s: CellState, t: CellState) {
    && s.keyEpoch <= t.keyEpoch
    && (forall e: nat :: e in s.epochMembers ==> e in t.epochMembers && s.epochMembers[e] <= t.epochMembers[e])
    && (forall e: nat :: e in s.epochMembers && e < s.keyEpoch ==> s.epochMembers[e] == t.epochMembers[e])
  }

  /** A placed object is never rewritten, and roots stay published. */
  ghost predicate ObjectsAdvance(s: CellState, t: CellState) {
    && s.placed <= t.placed && s.published <= t.published
    && (forall o :: o in s.objClass ==> o in t.objClass && t.objClass[o] == s.objClass[o])
    && (forall o :: o in s.objEpoch ==> o in t.objEpoch && t.objEpoch[o] == s.objEpoch[o])
    && (forall o :: o in s.objTags ==> o in t.objTags && t.objTags[o] == s.objTags[o])
  }

  ghost predicate Advances(s: CellState, t: CellState) {
    KeysAdvance(s, t) && ObjectsAdvance(s, t)
  }

  lemma SealedKeys(s: CellState, members: set<NodeId>, epoch: nat)
    requires KeysConsistent(s)
    requires (epoch == s.keyEpoch && s.members <= members) || epoch == s.keyEpoch + 1
    ensures KeysConsistent(Sealed(s, members, epoch)) && KeysAdvance(s, Sealed(s, members, epoch))
  {
  }

  ghost predicate SameKeys(s: CellState, t: CellState) {
    t.members == s.members && t.keyEpoch == s.keyEpoch && t.epochMembers == s.epochMembers
  }

  lemma KeysUntouched(s: CellState, t: CellState, u: CellState)
    requires KeysConsistent(t) && KeysAdvance(s, t) && SameKeys(t, u)
    ensures KeysConsistent(u) && KeysAdvance(s, u)
  {
  }

  /** What a step does to the keys: nothing, or one sealing. */
  lemma StepSeals(s: CellState, op: Op)
    ensures var t := Step(s, op).0;
            || SameKeys(s, t)
            || ((op.Admit? || op.AdmitVersioned?) && SameKeys(Sealed(s, s.members + {op.node}, s.keyEpoch), t))
            || (op.Leave? && SameKeys(Sealed(s, s.members - {op.node}, s.keyEpoch + 1), t))
            || (op.EndRotate? && SameKeys(Sealed(s, s.members, s.keyEpoch + 1), t))
  {
  }

  lemma StepKeys(s: CellState, op: Op)
    requires KeysConsistent(s)
    ensures KeysConsistent(Step(s, op).0) && KeysAdvance(s, Step(s, op).0)
  {
    StepSeals(s, op);
    var t := Step(s, op).0;
    if SameKeys(s, t) {
      KeysUntouched(s, s, t);
    } else {
      var members, epoch :=
        if op.Leave? then s.members - {op.node} else if op.EndRotate? then s.members else s.members + {op.node},
        if op.Leave? || op.EndRotate? then s.keyEpoch + 1 else s.keyEpoch;
      SealedKeys(s, members, epoch);
      KeysUntouched(s, Sealed(s, members, epoch), t);
    }
  }

  lemma PlacedObjects(s: CellState, obj: ObjectId, visClass: VisClass, tags: set<Tag>)
    requires ObjectsConsistent(s) && obj !in s.placed
    ensures ObjectsConsistent(Placed(s, obj, visClass, tags)) && ObjectsAdvance(s, Placed(s, obj, visClass, tags))
  {
  }

  ghost predicate SameObjects(s: CellState, t: CellState) {
    t.objClass == s.objClass && t.objEpoch == s.objEpoch && t.objTags == s.objTags && t.placed == s.placed
  }

  lemma ObjectsUntouched(s: CellState, t: CellState)
    requires ObjectsConsistent(s) && SameObjects(s, t)
    requires s.keyEpoch <= t.keyEpoch && s.published <= t.published
    requires t.namePtr == s.namePtr || (t.namePtr.Some? && t.namePtr.value in t.published)
    ensures ObjectsConsistent(t) && ObjectsAdvance(s, t)
  {
  }

  lemma StepLeavesObjects(s: CellState, op: Op)
    ensures var t := Step(s, op).0;
            && s.keyEpoch <= t.keyEpoch && s.published <= t.published
            && (t.namePtr == s.namePtr || (t.namePtr.Some? && t.namePtr.value in t.published))
            && (SameObjects(s, t) || (op.PlaceObject? && op.obj !in s.placed && t == Placed(s, op.obj, op.visClass, op.tags)))
  {
  }

  lemma StepObjects(s: CellState, op: Op)
    requires ObjectsConsistent(s)
    ensures ObjectsConsistent(Step(s, op).0) && ObjectsAdvance(s, Step(s, op).0)
  {
    var t := Step(s, op).0;
    StepLeavesObjects(s, op);
    if SameObjects(s, t) {
      ObjectsUntouched(s, t);
    } else {
      PlacedObjects(s, op.obj, op.visClass, op.tags);
    }
  }

  lemma StepKeeps(s: CellState, op: Op)
    requires Consistent(s)
    ensures Consistent(Step(s, op).0) && Advances(s, Step(s, op).0)
  {
    StepKeys(s, op);
    StepObjects(s, op);
  }

  /** A refused operation changes nothing. */
  lemma RefusalKeepsState(s: CellState, op: Op)
    ensures Step(s, op).1.Err? ==> Step(s, op).0 == s
  {
  }

  lemma {:induction false} Reachable(ops: seq<Op>)
    ensures Consistent(Run(ops))
  {
    if ops == [] {
    } else {
      Reachable(ops[..|ops| - 1]);
      StepKeeps(Run(ops[..|ops| - 1]), ops[|ops| - 1]);
    }
  }

  lemma {:induction false} RunAdvances(ops: seq<Op>, i: nat, j: nat)
    requires i <= j <= |ops|
    ensures Consistent(At(ops, i)) && Consistent(At(ops, j)) && Advances(At(ops, i), At(ops, j))
    decreases j - i
  {
    Reachable(ops[..i]);
    Reachable(ops[..j]);
    if i < j {
      RunAdvances(ops, i, j - 1);
      AtStep(ops, j - 1);
      StepKeeps(At(ops, j - 1), ops[j - 1]);
    }
  }

  // ---- the stored set of an epoch is the history of that epoch ----

  /** Some state of the run had key epoch `epoch` with `node` a member. */
  ghost predicate WasMemberIn(ops: seq<Op>, node: NodeId, epoch: nat) {
    exists i :: 0 <= i <= |ops| && At(ops, i).keyEpoch == epoch && node in At(ops, i).members
  }

  predicate SealedTo(s: CellState, node: NodeId, epoch: nat) {
    epoch in s.epochMembers && node in s.epochMembers[epoch]
  }

  lemma SealedStep(s: CellState, op: Op, node: NodeId, epoch: nat)
    requires Consistent(s)
    ensures var t := Step(s, op).0;
            SealedTo(t, node, epoch) <==> SealedTo(s, node, epoch) || (t.keyEpoch == epoch && node in t.members)
  {
    StepKeys(s, op);
  }

  /** Only the last member set of an epoch is stored, yet it equals the union of every member set
      seen while that epoch was current. */
  lemma {:induction false} SealedSetIsHistory(ops: seq<Op>, node: NodeId, epoch: nat)
    ensures SealedTo(Run(ops), node, epoch) <==> WasMemberIn(ops, node, epoch)
  {
    if ops == [] {
      assert At(ops, 0) == FRESH;
    } else {
      var before, last := ops[..|ops| - 1], ops[|ops| - 1];
      assert before + [last] == ops;
      SealedSetIsHistory(before, node, epoch);
      Reachable(before);
      SealedStep(Run(before), last, node, epoch);
      WasMemberInGrows(before, last, node, epoch);
    }
  }

  lemma WasMemberInGrows(ops: seq<Op>, op: Op, node: NodeId, epoch: nat)
    ensures WasMemberIn(ops + [op], node, epoch) <==>
            WasMemberIn(ops, node, epoch) || (Run(ops + [op]).keyEpoch == epoch && node in Run(ops + [op]).members)
  {
    var all := ops + [op];
    assert all[..|all|] == all;
    assert all[..|ops|] == ops;
    forall i: nat | i <= |ops|
      ensures At(all, i) == At(ops, i)
    {
      AtPrefix(all, |ops|, i);
    }
    if Run(all).keyEpoch == epoch && node in Run(all).members {
      assert At(all, |all|) == Run(all);
    }
    if WasMemberIn(ops, node, epoch) {
      var i :| 0 <= i <= |ops| && At(ops, i).keyEpoch == epoch && node in At(ops, i).members;
      assert At(all, i).keyEpoch == epoch;
    }
  }

  /** A node decrypts a placed cell-encrypted object exactly when it was a member at some moment of
      the epoch the object was sealed under. */
  lemma DecryptsIffMemberOfItsEpoch(ops: seq<Op>, node: NodeId, obj: ObjectId)
    requires obj in Run(ops).placed
    ensures obj in Run(ops).objClass && obj in Run(ops).objEpoch
    ensures Run(ops).objClass[obj].CellEncrypted? ==>
              (Run(ops).NodeCanDecrypt(node, obj) <==> WasMemberIn(ops, node, Run(ops).objEpoch[obj]))
  {
    Reachable(ops);
    SealedSetIsHistory(ops, node, Run(ops).objEpoch[obj]);
  }

  // ---- forward secrecy and frozen epochs ----

  /** Once an epoch is over, who decrypts its objects is settled for good; before that, access to a
      placed object can be gained but never lost. */
  lemma DecryptionSettlesWithTheEpoch(ops: seq<Op>, i: nat, j: nat, node: NodeId, obj: ObjectId)
    requires i <= j <= |ops|
    requires obj in At(ops, i).placed
    ensures At(ops, i).NodeCanDecrypt(node, obj) ==> At(ops, j).NodeCanDecrypt(node, obj)
    ensures obj in At(ops, i).objEpoch
    ensures At(ops, i).objEpoch[obj] < At(ops, i).keyEpoch ==>
              (At(ops, i).NodeCanDecrypt(node, obj) <==> At(ops, j).NodeCanDecrypt(node, obj))
  {
    RunAdvances(ops, i, j);
  }

  /** The operation tries to bring `node` in. */
  predicate Admits(op: Op, node: NodeId) {
    (op.Admit? || op.AdmitVersioned?) && op.node == node
  }

  lemma MemberStep(s: CellState, op: Op, node: NodeId)
    requires node !in s.members && !Admits(op, node)
    ensures node !in Step(s, op).0.members
  {
  }

  lemma {:induction false} StaysOut(ops: seq<Op>, i: nat, j: nat, node: NodeId)
    requires i <= j <= |ops|
    requires node !in At(ops, i).members
    requires forall k :: i <= k < j ==> !Admits(ops[k], node)
    ensures node !in At(ops, j).members
    decreases j - i
  {
    if i < j {
      StaysOut(ops, i, j - 1, node);
      AtStep(ops, j - 1);
      MemberStep(At(ops, j - 1), ops[j - 1], node);
    }
  }

  /** A node that left decrypts no cell-encrypted object placed since, in every continuation that
      does not admit it again. */
  lemma ForwardSecrecy(ops: seq<Op>, i: nat, node: NodeId, obj: ObjectId)
    requires i < |ops|
    requires ops[i] == Leave(node) && Step(At(ops, i), ops[i]).1.Ok?
    requires forall k :: i < k < |ops| ==> !Admits(ops[k], node)
    requires obj !in At(ops, i).placed
    requires obj in Run(ops).placed && obj in Run(ops).objClass && Run(ops).objClass[obj].CellEncrypted?
    ensures !Run(ops).NodeCanDecrypt(node, obj)
  {
    assert ops[..|ops|] == ops;
    DecryptsIffMemberOfItsEpoch(ops, node, obj);
    AtStep(ops, i);
    PlacedLater(ops, i + 1, obj);
    var sealedAt := Run(ops).objEpoch[obj];
    assert sealedAt >= At(ops, i + 1).keyEpoch;
    if WasMemberIn(ops, node, sealedAt) {
      var k :| 0 <= k <= |ops| && At(ops, k).keyEpoch == sealedAt && node in At(ops, k).members;
      if k <= i {
        RunAdvances(ops, k, i);
      } else {
        StaysOut(ops, i + 1, k, node);
      }
    }
  }

  /** A step that makes an object appear is a write of it, under the current epoch, fence down. */
  lemma PlaceStep(s: CellState, op: Op, obj: ObjectId)
    requires obj !in s.placed
    ensures var t := Step(s, op).0;
            obj in t.placed ==>
              && op.PlaceObject? && op.obj == obj && !s.rotating
              && obj in t.objClass && t.objClass[obj] == op.visClass
              && obj in t.objEpoch && t.objEpoch[obj] == s.keyEpoch
              && obj in t.objTags && t.objTags[obj] == op.tags
  {
  }

  /** An object missing at moment `i` carries an epoch no earlier than the one then current. */
  lemma {:induction false} PlacedLater(ops: seq<Op>, i: nat, obj: ObjectId)
    requires i <= |ops|
    requires obj !in At(ops, i).placed
    ensures obj in Run(ops).placed ==>
              obj in Run(ops).objEpoch && At(ops, i).keyEpoch <= Run(ops).objEpoch[obj]
    decreases |ops|
  {
    if i == |ops| {
      assert ops[..i] == ops;
    } else {
      var before, last := ops[..|ops| - 1], ops[|ops| - 1];
      AtPrefix(ops, |before|, i);
      PlacedLater(before, i, obj);
      RunAdvances(ops, i, |before|);
      if obj in Run(before).placed {
        StepKeeps(Run(before), last);
      } else {
        PlaceStep(Run(before), last, obj);
      }
    }
  }

  /** Step `i` wrote the object with the fence down, and the run still shows what it wrote. */
  ghost predicate WrittenAt(ops: seq<Op>, i: nat, obj: ObjectId) {
    && i < |ops| && ops[i].PlaceObject? && ops[i].obj == obj
    && !At(ops, i).rotating && obj !in At(ops, i).placed
    && obj in Run(ops).objClass && Run(ops).objClass[obj] == ops[i].visClass
    && obj in Run(ops).objEpoch && Run(ops).objEpoch[obj] == At(ops, i).keyEpoch
    && obj in Run(ops).objTags && Run(ops).objTags[obj] == ops[i].tags
  }

  lemma WrittenAtLasts(ops: seq<Op>, i: nat, obj: ObjectId)
    requires ops != [] && WrittenAt(ops[..|ops| - 1], i, obj)
    ensures WrittenAt(ops, i, obj)
  {
    var before := ops[..|ops| - 1];
    AtPrefix(ops, |before|, i);
    Reachable(before);
    StepObjects(Run(before), ops[|ops| - 1]);
  }

  /** No write straddles a rotation: every placed object was written by one operation, with the
      fence down, and still carries that operation's class and tags and the epoch current then. */
  lemma {:induction false} PlacementIsOneWrite(ops: seq<Op>, obj: ObjectId)
    requires obj in Run(ops).placed
    ensures exists i: nat :: WrittenAt(ops, i, obj)
  {
    var before := ops[..|ops| - 1];
    if obj in Run(before).placed {
      PlacementIsOneWrite(before, obj);
      var i: nat :| WrittenAt(before, i, obj);
      WrittenAtLasts(ops, i, obj);
    } else {
      PlaceStep(Run(before), ops[|ops| - 1], obj);
      assert WrittenAt(ops, |before|, obj);
    }
  }

  // ---- grants and the naming pointer, read off the run ----

  /** Step `i` added the grant and no later one revoked it. */
  ghost predicate AddedForGood(ops: seq<Op>, i: nat, grant: Grant) {
    i < |ops| && ops[i] == AddGrant(grant) && forall j :: i < j < |ops| ==> ops[j] != RevokeGrant(grant)
  }

  ghost predicate InForce(ops: seq<Op>, grant: Grant) {
    exists i: nat :: AddedForGood(ops, i, grant)
  }

  lemma GrantStep(s: CellState, op: Op, grant: Grant)
    ensures grant in Step(s, op).0.grants <==>
            op == AddGrant(grant) || (grant in s.grants && op != RevokeGrant(grant))
  {
  }

  lemma InForceGrows(ops: seq<Op>, grant: Grant)
    requires ops != []
    ensures var last := ops[|ops| - 1];
            InForce(ops, grant) <==>
            last == AddGrant(grant) || (InForce(ops[..|ops| - 1], grant) && last != RevokeGrant(grant))
  {
    var before, last := ops[..|ops| - 1], ops[|ops| - 1];
    if last == AddGrant(grant) {
      assert AddedForGood(ops, |before|, grant);
    } else {
      forall i: nat
        ensures AddedForGood(ops, i, grant) <==> AddedForGood(before, i, grant) && last != RevokeGrant(grant)
      {
        if AddedForGood(ops, i, grant) {
          assert before[i] == ops[i];
        }
      }
    }
  }

  lemma {:induction false} GrantsAreTheUnrevoked(ops: seq<Op>, grant: Grant)
    ensures grant in Run(ops).grants <==> InForce(ops, grant)
  {
    if ops != [] {
      GrantsAreTheUnrevoked(ops[..|ops| - 1], grant);
      GrantStep(Run(ops[..|ops| - 1]), ops[|ops| - 1], grant);
      InForceGrows(ops, grant);
    }
  }

  /** Access is exactly what the grants in force confer on the object's tags; writing needs a
      read-write grant, so it implies reading. */
  lemma AccessIsGranted(ops: seq<Op>, user: UserId, obj: ObjectId)
    ensures Run(ops).UserCanRead(user, obj) <==>
            exists g :: InForce(ops, g) && g.user == user && g.scope.Covers(Run(ops).TagsOf(obj))
    ensures Run(ops).UserCanWrite(user, obj) <==>
            exists g :: InForce(ops, g) && g.user == user && g.mode.ReadWrite? && g.scope.Covers(Run(ops).TagsOf(obj))
    ensures Run(ops).UserCanWrite(user, obj) ==> Run(ops).UserCanRead(user, obj)
  {
    forall g: Grant
      ensures g in Run(ops).grants <==> InForce(ops, g)
    {
      GrantsAreTheUnrevoked(ops, g);
    }
    var s := Run(ops);
    if s.UserCanWrite(user, obj) {
      var g :| g in s.grants && g.user == user && g.mode == ReadWrite && g.scope.Covers(s.TagsOf(obj));
      assert InForce(ops, g);
    }
    if s.UserCanRead(user, obj) {
      var g :| g in s.grants && g.user == user && g.scope.Covers(s.TagsOf(obj));
      assert InForce(ops, g);
    }
  }

  lemma RootStep(s: CellState, op: Op, root: Root)
    ensures root in Step(s, op).0.published <==> root in s.published || op == PublishRoot(root)
    ensures Step(s, op).0.namePtr == if op.SetNamePtr? && op.root in s.published then Some(op.root) else s.namePtr
  {
  }

  lemma {:induction false} PublishedIffAnnounced(ops: seq<Op>, root: Root)
    ensures root in Run(ops).published <==> exists i :: 0 <= i < |ops| && ops[i] == PublishRoot(root)
  {
    if ops != [] {
      var before := ops[..|ops| - 1];
      PublishedIffAnnounced(before, root);
      RootStep(Run(before), ops[|ops| - 1], root);
      assert forall i :: 0 <= i < |before| ==> ops[i] == before[i];
    }
  }

  /** Step `i` asked for the pointer to move to a root published by then. */
  ghost predicate MovesPtr(ops: seq<Op>, i: nat)
    requires i < |ops|
  {
    ops[i].SetNamePtr? && ops[i].root in At(ops, i).published
  }

  ghost predicate IsLastMove(ops: seq<Op>, i: nat) {
    i < |ops| && MovesPtr(ops, i) && forall j :: i < j < |ops| ==> !MovesPtr(ops, j)
  }

  lemma LastMoveOfPrefix(ops: seq<Op>, i: nat)
    requires ops != [] && !MovesPtr(ops, |ops| - 1)
    ensures IsLastMove(ops, i) <==> IsLastMove(ops[..|ops| - 1], i)
  {
    var before := ops[..|ops| - 1];
    forall j: nat | j < |before|
      ensures MovesPtr(before, j) <==> MovesPtr(ops, j)
    {
      AtPrefix(ops, |before|, j);
    }
  }

  ghost predicate LastMoveNames(ops: seq<Op>, root: Root) {
    exists i: nat :: IsLastMove(ops, i) && ops[i].root == root
  }

  lemma LastMoveGrows(ops: seq<Op>, root: Root)
    requires ops != []
    ensures LastMoveNames(ops, root) <==>
            if MovesPtr(ops, |ops| - 1) then ops[|ops| - 1].root == root else LastMoveNames(ops[..|ops| - 1], root)
  {
    if MovesPtr(ops, |ops| - 1) {
      assert IsLastMove(ops, |ops| - 1);
    } else {
      forall i: nat
        ensures IsLastMove(ops, i) <==> IsLastMove(ops[..|ops| - 1], i)
      {
        LastMoveOfPrefix(ops, i);
      }
      assert forall i: nat :: IsLastMove(ops[..|ops| - 1], i) ==> ops[i] == ops[..|ops| - 1][i];
    }
  }

  /** The cell name resolves to the target of the last such move, and to nothing without one. */
  lemma {:induction false} NamePtrIsLastMove(ops: seq<Op>, root: Root)
    ensures Run(ops).namePtr == Some(root) <==> LastMoveNames(ops, root)
  {
    if ops != [] {
      NamePtrIsLastMove(ops[..|ops| - 1], root);
      RootStep(Run(ops[..|ops| - 1]), ops[|ops| - 1], root);
      LastMoveGrows(ops, root);
    }
  }

  // ---- the whole machine read off its operations ----

  /** The last rotation operation asked for began a rotation. */
  ghost predicate FenceUp(ops: seq<Op>) {
    exists i: nat :: BeganForGood(ops, i)
  }

  ghost predicate BeganForGood(ops: seq<Op>, i: nat) {
    i < |ops| && ops[i].BeginRotate? && forall j :: i < j < |ops| ==> !ops[j].EndRotate?
  }

  lemma FenceGrows(ops: seq<Op>)
    requires ops != []
    ensures var last := ops[|ops| - 1];
            FenceUp(ops) <==> last.BeginRotate? || (FenceUp(ops[..|ops| - 1]) && !last.EndRotate?)
  {
    var before, last := ops[..|ops| - 1], ops[|ops| - 1];
    if last.BeginRotate? {
      assert BeganForGood(ops, |before|);
    } else {
      forall i: nat
        ensures BeganForGood(ops, i) <==> BeganForGood(before, i) && !last.EndRotate?
      {
        if BeganForGood(ops, i) {
          assert before[i] == ops[i];
        }
      }
    }
  }

  lemma FenceStep(s: CellState, op: Op)
    ensures Step(s, op).0.rotating <==> op.BeginRotate? || (s.rotating && !op.EndRotate?)
  {
  }

  /** The fence is up exactly between a beginning and the next ending asked for. */
  lemma {:induction false} FenceIff(ops: seq<Op>)
    ensures Run(ops).rotating <==> FenceUp(ops)
  {
    if ops != [] {
      FenceIff(ops[..|ops| - 1]);
      FenceStep(Run(ops[..|ops| - 1]), ops[|ops| - 1]);
      FenceGrows(ops);
    }
  }

  /** The operation asks to bring the node in, with versions that agree where versions are asked for. */
  ghost predicate Welcomes(op: Op, node: NodeId) {
    || op == Admit(node)
    || (op.AdmitVersioned? && op.node == node && AgreeOnAll(op.local, op.remote, op.required, op.window))
  }

  /** Step `i` asked to bring the node in with the fence down, and no later step asked it out with the fence down. */
  ghost predicate WelcomedForGood(ops: seq<Op>, i: nat, node: NodeId) {
    && i < |ops| && Welcomes(ops[i], node) && !FenceUp(ops[..i])
    && forall j :: i < j < |ops| ==> !Departs(ops, j, node)
  }

  ghost predicate Departs(ops: seq<Op>, j: nat, node: NodeId)
    requires j < |ops|
  {
    ops[j] == Leave(node) && !FenceUp(ops[..j])
  }

  ghost predicate Inside(ops: seq<Op>, node: NodeId) {
    exists i: nat :: WelcomedForGood(ops, i, node)
  }

  lemma InsideGrows(ops: seq<Op>, node: NodeId)
    requires ops != []
    ensures var before, last := ops[..|ops| - 1], ops[|ops| - 1];
            Inside(ops, node) <==>
            if FenceUp(before) then Inside(before, node)
            else Welcomes(last, node) || (Inside(before, node) && last != Leave(node))
  {
    var n := |ops| - 1;
    var before, last := ops[..n], ops[n];
    forall j: nat | j < n
      ensures before[..j] == ops[..j]
    {
    }
    if !FenceUp(before) && Welcomes(last, node) {
      assert WelcomedForGood(ops, n, node);
    } else {
      forall i: nat
        ensures WelcomedForGood(ops, i, node) <==> WelcomedForGood(before, i, node) && !Departs(ops, n, node)
      {
        WelcomeOfPrefix(ops, i, node);
      }
    }
  }

  lemma WelcomeOfPrefix(ops: seq<Op>, i: nat, node: NodeId)
    requires ops != []
    requires FenceUp(ops[..|ops| - 1]) || !Welcomes(ops[|ops| - 1], node)
    ensures WelcomedForGood(ops, i, node) <==>
            WelcomedForGood(ops[..|ops| - 1], i, node) && !Departs(ops, |ops| - 1, node)
  {
    var n := |ops| - 1;
    var before := ops[..n];
    forall j: nat | j < n
      ensures before[j] == ops[j] && before[..j] == ops[..j] && (Departs(before, j, node) <==> Departs(ops, j, node))
    {
      assert before[..j] == ops[..j];
    }
  }

  lemma WelcomedStep(s: CellState, op: Op, node: NodeId)
    ensures node in Step(s, op).0.members <==>
            if s.rotating then node in s.members
            else Welcomes(op, node) || (node in s.members && op != Leave(node))
  {
    if op.AdmitVersioned? {
      NegotiatedIff(op.local, op.remote, op.required, op.window);
    }
  }

  /** The members are exactly the nodes whose last admission or departure asked for with the fence down is an
      admission. */
  lemma {:induction false} MembersIff(ops: seq<Op>, node: NodeId)
    ensures node in Run(ops).members <==> Inside(ops, node)
  {
    if ops != [] {
      var before := ops[..|ops| - 1];
      MembersIff(before, node);
      FenceIff(before);
      WelcomedStep(Run(before), ops[|ops| - 1], node);
      InsideGrows(ops, node);
    }
  }

  /** Step `i` opens an epoch: a member leaves with the fence down, or a rotation ends. */
  ghost predicate Opens(ops: seq<Op>, i: nat)
    requires i < |ops|
  {
    || (ops[i].Leave? && !FenceUp(ops[..i]) && Inside(ops[..i], ops[i].node))
    || (ops[i].EndRotate? && FenceUp(ops[..i]))
  }

  ghost function EpochsOpened(ops: seq<Op>): nat {
    if ops == [] then 0
    else EpochsOpened(ops[..|ops| - 1]) + if Opens(ops, |ops| - 1) then 1 else 0
  }

  lemma EpochStep(s: CellState, op: Op)
    ensures Step(s, op).0.keyEpoch ==
            s.keyEpoch + if (op.Leave? && !s.rotating && op.node in s.members) || (op.EndRotate? && s.rotating) then 1 else 0
  {
  }

  /** The key epoch counts the departures and the completed rotations. */
  lemma {:induction false} EpochIsCount(ops: seq<Op>)
    ensures Run(ops).keyEpoch == EpochsOpened(ops)
  {
    if ops != [] {
      var before, last := ops[..|ops| - 1], ops[|ops| - 1];
      EpochIsCount(before);
      FenceIff(before);
      if last.Leave? {
        MembersIff(before, last.node);
      }
      EpochStep(Run(before), last);
    }
  }

  /** Step `i` asks to place the object with the fence down. */
  ghost predicate Places(ops: seq<Op>, i: nat, obj: ObjectId) {
    i < |ops| && ops[i].PlaceObject? && ops[i].obj == obj && !FenceUp(ops[..i])
  }

  /** The first of these: the one that counts. */
  ghost predicate FirstPlaces(ops: seq<Op>, i: nat, obj: ObjectId) {
    Places(ops, i, obj) && forall j: nat :: j < i ==> !Places(ops, j, obj)
  }

  ghost predicate Placement(ops: seq<Op>, obj: ObjectId) {
    exists i: nat :: Places(ops, i, obj)
  }

  lemma PlacesOfPrefix(ops: seq<Op>, n: nat, i: nat, obj: ObjectId)
    requires i < n <= |ops|
    ensures Places(ops[..n], i, obj) <==> Places(ops, i, obj)
  {
    assert ops[..n][..i] == ops[..i];
  }

  lemma PlacementGrows(ops: seq<Op>, obj: ObjectId)
    requires ops != []
    ensures Placement(ops, obj) <==> Placement(ops[..|ops| - 1], obj) || Places(ops, |ops| - 1, obj)
  {
    var n := |ops| - 1;
    forall i: nat | i < n
      ensures Places(ops[..n], i, obj) <==> Places(ops, i, obj)
    {
      PlacesOfPrefix(ops, n, i, obj);
    }
  }

  lemma PlacedStep(s: CellState, op: Op, obj: ObjectId)
    ensures obj in Step(s, op).0.placed <==> obj in s.placed || (op.PlaceObject? && op.obj == obj && !s.rotating)
  {
  }

  /** An object is placed exactly when some step asked for it with the fence down. */
  lemma {:induction false} PlacedIff(ops: seq<Op>, obj: ObjectId)
    ensures obj in Run(ops).placed <==> Placement(ops, obj)
  {
    if ops != [] {
      var before := ops[..|ops| - 1];
      PlacedIff(before, obj);
      FenceIff(before);
      PlacedStep(Run(before), ops[|ops| - 1], obj);
      PlacementGrows(ops, obj);
    }
  }

  /** The state shows the class and tags of that step and the epoch open at it. */
  ghost predicate Shows(s: CellState, obj: ObjectId, op: Op, epoch: nat)
    requires op.PlaceObject?
  {
    && obj in s.objClass && s.objClass[obj] == op.visClass
    && obj in s.objEpoch && s.objEpoch[obj] == epoch
    && obj in s.objTags && s.objTags[obj] == op.tags
  }

  /** A placed object shows the class, tags and epoch of the first step that placed it. */
  lemma FirstPlacementShows(ops: seq<Op>, obj: ObjectId) returns (i: nat)
    requires Placement(ops, obj)
    ensures FirstPlaces(ops, i, obj) && Shows(Run(ops), obj, ops[i], EpochsOpened(ops[..i]))
  {
    PlacedIff(ops, obj);
    PlacementIsOneWrite(ops, obj);
    i :| WrittenAt(ops, i, obj);
    FenceIff(ops[..i]);
    EpochIsCount(ops[..i]);
    PlacedIff(ops[..i], obj);
    forall j: nat | j < i
      ensures !Places(ops, j, obj)
    {
      PlacesOfPrefix(ops, i, j, obj);
    }
  }

  lemma FirstPlacesUnique(ops: seq<Op>, i: nat, j: nat, obj: ObjectId)
    requires FirstPlaces(ops, i, obj) && FirstPlaces(ops, j, obj)
    ensures i == j
  {
  }

  /** Some moment of the run at which this epoch was open had the node inside. */
  ghost predicate InsideDuring(ops: seq<Op>, node: NodeId, epoch: nat) {
    exists k: nat :: InsideAt(ops, k, node, epoch)
  }

  ghost predicate InsideAt(ops: seq<Op>, k: nat, node: NodeId, epoch: nat) {
    k <= |ops| && EpochsOpened(ops[..k]) == epoch && Inside(ops[..k], node)
  }

  lemma InsideDuringIff(ops: seq<Op>, node: NodeId, epoch: nat)
    ensures WasMemberIn(ops, node, epoch) <==> InsideDuring(ops, node, epoch)
  {
    forall k: nat | k <= |ops|
      ensures InsideAt(ops, k, node, epoch) <==> At(ops, k).keyEpoch == epoch && node in At(ops, k).members
    {
      EpochIsCount(ops[..k]);
      MembersIff(ops[..k], node);
    }
    if WasMemberIn(ops, node, epoch) {
      var k :| 0 <= k <= |ops| && At(ops, k).keyEpoch == epoch && node in At(ops, k).members;
      assert InsideAt(ops, k, node, epoch);
    }
  }

  /** What the placing step promises a node: a public object to all, a cell-encrypted one to whoever was inside while
      its epoch was open, one sealed to nodes to those nodes, and one sealed to cells or users to no node. */
  ghost predicate Readable(ops: seq<Op>, i: nat, node: NodeId)
    requires i < |ops| && ops[i].PlaceObject?
  {
    match ops[i].visClass
    case Public => true
    case CellEncrypted => InsideDuring(ops, node, EpochsOpened(ops[..i]))
    case RecipientSealed(PerNode(nodes)) => node in nodes
    case RecipientSealed(PerCell(_)) => false
    case RecipientSealed(PerUser(_)) => false
  }

  /** A node decrypts an object exactly when the first step that placed it promises so. */
  lemma DecryptsIffPromised(ops: seq<Op>, node: NodeId, obj: ObjectId)
    ensures Run(ops).NodeCanDecrypt(node, obj) <==>
            exists i: nat :: FirstPlaces(ops, i, obj) && Readable(ops, i, node)
  {
    PlacedIff(ops, obj);
    if Placement(ops, obj) {
      var i := FirstPlacementShows(ops, obj);
      DecryptsIffMemberOfItsEpoch(ops, node, obj);
      InsideDuringIff(ops, node, EpochsOpened(ops[..i]));
      assert Run(ops).NodeCanDecrypt(node, obj) <==> Readable(ops, i, node);
      forall j: nat | FirstPlaces(ops, j, obj)
        ensures j == i
      {
        FirstPlacesUnique(ops, i, j, obj);
      }
    }
  }

  /** In particular a node inside when a cell-encrypted object is placed decrypts it from then on. */
  lemma InsiderDecrypts(ops: seq<Op>, i: nat, node: NodeId, obj: ObjectId)
    requires FirstPlaces(ops, i, obj) && ops[i].visClass.CellEncrypted? && Inside(ops[..i], node)
    ensures Run(ops).NodeCanDecrypt(node, obj)
  {
    assert InsideAt(ops, i, node, EpochsOpened(ops[..i]));
    assert Readable(ops, i, node);
    DecryptsIffPromised(ops, node, obj);
  }

  // ---- every reply, read off the history ----

  /** The reply of an admission without negotiation: fence, then membership. */
  ghost predicate AdmissionReply(ops: seq<Op>, node: NodeId, r: Reply) {
    && (r == Err(RotationFence) <==> FenceUp(ops))
    && (r == Err(MembershipPrecondition) <==> !FenceUp(ops) && Inside(ops, node))
    && (r == Ok(Unit) <==> !FenceUp(ops) && !Inside(ops, node))
  }

  lemma AdmitReplies(ops: seq<Op>, node: NodeId)
    ensures AdmissionReply(ops, node, Step(Run(ops), Admit(node)).1)
  {
    FenceIff(ops);
    MembersIff(ops, node);
  }

  /** A versioned admission is refused for its first surface that does not agree, and otherwise answered as a plain one. */
  lemma AdmitVersionedReplies(ops: seq<Op>, op: Op)
    requires op.AdmitVersioned?
    ensures var r := Step(Run(ops), op).1;
            && (AgreeOnAll(op.local, op.remote, op.required, op.window) ==> AdmissionReply(ops, op.node, r))
            && (!AgreeOnAll(op.local, op.remote, op.required, op.window) ==>
                  && r.Err? && r.error.CompatRefused?
                  && exists i: nat :: ExplainsFirst(r.error.cause, op.local, op.remote, op.required, op.window, i))
  {
    NegotiatedIff(op.local, op.remote, op.required, op.window);
    AdmitReplies(ops, op.node);
  }

  lemma LeaveReplies(ops: seq<Op>, node: NodeId)
    ensures var r := Step(Run(ops), Leave(node)).1;
            && (r == Err(RotationFence) <==> FenceUp(ops))
            && (r == Err(MembershipPrecondition) <==> !FenceUp(ops) && !Inside(ops, node))
            && (r == Ok(Unit) <==> !FenceUp(ops) && Inside(ops, node))
  {
    FenceIff(ops);
    MembersIff(ops, node);
  }

  lemma RotateReplies(ops: seq<Op>)
    ensures Step(Run(ops), BeginRotate).1 == if FenceUp(ops) then Err(RotationFence) else Ok(Unit)
    ensures Step(Run(ops), EndRotate).1 == if FenceUp(ops) then Ok(Unit) else Err(RotationFence)
  {
    FenceIff(ops);
  }

  lemma PlaceReplies(ops: seq<Op>, op: Op)
    requires op.PlaceObject?
    ensures var r := Step(Run(ops), op).1;
            && (r == Err(RotationFence) <==> FenceUp(ops))
            && (r == Err(AlreadyPlaced(op.obj)) <==> !FenceUp(ops) && Placement(ops, op.obj))
            && (r == Ok(Unit) <==> !FenceUp(ops) && !Placement(ops, op.obj))
  {
    FenceIff(ops);
    PlacedIff(ops, op.obj);
  }

  lemma GrantReplies(ops: seq<Op>, grant: Grant)
    ensures Step(Run(ops), AddGrant(grant)).1 == if InForce(ops, grant) then Err(GrantPrecondition) else Ok(Unit)
    ensures Step(Run(ops), RevokeGrant(grant)).1 == if InForce(ops, grant) then Ok(Unit) else Err(GrantPrecondition)
  {
    GrantsAreTheUnrevoked(ops, grant);
  }

  lemma RootReplies(ops: seq<Op>, root: Root)
    ensures Step(Run(ops), PublishRoot(root)).1 == if PublishRoot(root) in ops then Err(RootPrecondition(root)) else Ok(Unit)
    ensures Step(Run(ops), SetNamePtr(root)).1 == if PublishRoot(root) in ops then Ok(Unit) else Err(RootPrecondition(root))
  {
    PublishedIffAnnounced(ops, root);
  }

  // ---- access, read off the history ----

  /** The grant reaches the object: it covers everything, or shares a tag with the step that placed the object. */
  ghost predicate Reaches(ops: seq<Op>, g: Grant, obj: ObjectId) {
    g.scope.All? || exists i: nat :: FirstPlaces(ops, i, obj) && SharesTag(g.scope, ops[i])
  }

  ghost predicate SharesTag(scope: GrantScope, op: Op)
    requires op.PlaceObject?
  {
    scope.Tags? && exists tag :: tag in scope.tags && tag in op.tags
  }

  lemma ReachesIff(ops: seq<Op>, g: Grant, obj: ObjectId)
    ensures Reaches(ops, g, obj) <==> g.scope.Covers(Run(ops).TagsOf(obj))
  {
    Reachable(ops);
    PlacedIff(ops, obj);
    if Placement(ops, obj) && g.scope.Tags? {
      var i := FirstPlacementShows(ops, obj);
      SharedTagIff(ops[i].tags, g.scope);
      forall j: nat | FirstPlaces(ops, j, obj)
        ensures j == i
      {
        FirstPlacesUnique(ops, i, j, obj);
      }
    }
  }

  lemma SharedTagIff(tags: set<Tag>, scope: GrantScope)
    requires scope.Tags?
    ensures scope.Covers(tags) <==> exists tag :: tag in scope.tags && tag in tags
  {
    if scope.Covers(tags) {
      var tag :| tag in tags * scope.tags;
    }
    if tag :| tag in scope.tags && tag in tags {
      assert tag in tags * scope.tags;
    }
  }

  ghost predicate Confers(ops: seq<Op>, g: Grant, user: UserId, obj: ObjectId) {
    InForce(ops, g) && g.user == user && Reaches(ops, g, obj)
  }

  /** A user reads an object exactly through a grant in force that reaches it, and writes it exactly through a
      read-write one. */
  lemma AccessIsConferred(ops: seq<Op>, user: UserId, obj: ObjectId)
    ensures Run(ops).UserCanRead(user, obj) <==> exists g :: Confers(ops, g, user, obj)
    ensures Run(ops).UserCanWrite(user, obj) <==> exists g :: Confers(ops, g, user, obj) && g.mode == ReadWrite
  {
    AccessIsGranted(ops, user, obj);
    forall g: Grant
      ensures Confers(ops, g, user, obj) <==> InForce(ops, g) && g.user == user && g.scope.Covers(Run(ops).TagsOf(obj))
    {
      ReachesIff(ops, g, obj);
    }
  }

  // ---- the object that is updated in place ----

  class Cell {
    var members: set<NodeId>
    var keyEpoch: nat
    var epochMembers: map<nat, set<NodeId>>
    var rotating: bool
    var objClass: map<ObjectId, VisClass>
    var objEpoch: map<ObjectId, nat>
    var objTags: map<ObjectId, set<Tag>>
    var placed: set<ObjectId>
    var grants: set<Grant>
    var published: set<Root>
    var namePtr: Option<Root>

    ghost function State(): CellState
      reads this
    {
      CellState(members, keyEpoch, epochMembers, rotating, objClass, objEpoch, objTags, placed, grants, published, namePtr)
    }

    constructor ()
      ensures State() == FRESH
    {
      members, keyEpoch, epochMembers, rotating := {}, 0, map[0 := {}], false;
      objClass, objEpoch, objTags, placed := map[], map[], map[], {};
      grants, published, namePtr := {}, {}, None;
    }

    method Admit(node: NodeId) returns (r: Reply)
      modifies this
      ensures (State(), r) == Step(old(State()), Op.Admit(node))
    {
      if rotating { return Err(RotationFence); }
      if node in members { return Err(MembershipPrecondition); }
      members := members + {node};
      epochMembers := epochMembers[keyEpoch := members];
      return Ok(Unit);
    }

    method AdmitVersioned(node: NodeId, local: Versions, remote: Versions, required: seq<Surface>, window: nat)
      returns (r: Reply)
      modifies this
      ensures (State(), r) == Step(old(State()), Op.AdmitVersioned(node, local, remote, required, window))
    {
      var negotiated := NegotiateAll(local, remote, required, window);
      if negotiated.Err? { return Err(CompatRefused(negotiated.error)); }
      r := Admit(node);
    }

    method Leave(node: NodeId) returns (r: Reply)
      modifies this
      ensures (State(), r) == Step(old(State()), Op.Leave(node))
    {
      if rotating { return Err(RotationFence); }
      if node !in members { return Err(MembershipPrecondition); }
      members := members - {node};
      keyEpoch := keyEpoch + 1;
      epochMembers := epochMembers[keyEpoch := members];
      return Ok(Unit);
    }

    method BeginRotate() returns (r: Reply)
      modifies this
      ensures (State(), r) == Step(old(State()), Op.BeginRotate)
    {
      if rotating { return Err(RotationFence); }
      rotating := true;
      return Ok(Unit);
    }

    method EndRotate() returns (r: Reply)
      modifies this
      ensures (State(), r) == Step(old(State()), Op.EndRotate)
    {
      if !rotating { return Err(RotationFence); }
      keyEpoch := keyEpoch + 1;
      epochMembers := epochMembers[keyEpoch := members];
      rotating := false;
      return Ok(Unit);
    }

    method PlaceObject(obj: ObjectId, visClass: VisClass, tags: set<Tag>) returns (r: Reply)
      modifies this
      ensures (State(), r) == Step(old(State()), Op.PlaceObject(obj, visClass, tags))
    {
      if rotating { return Err(RotationFence); }
      if obj in placed { return Err(AlreadyPlaced(obj)); }
      objClass := objClass[obj := visClass];
      objEpoch := objEpoch[obj := keyEpoch];
      objTags := objTags[obj := tags];
      placed := placed + {obj};
      return Ok(Unit);
    }

    method AddGrant(grant: Grant) returns (r: Reply)
      modifies this
      ensures (State(), r) == Step(old(State()), Op.AddGrant(grant))
    {
      if grant in grants { return Err(GrantPrecondition); }
      grants := grants + {grant};
      return Ok(Unit);
    }

    method RevokeGrant(grant: Grant) returns (r: Reply)
      modifies this
      ensures (State(), r) == Step(old(State()), Op.RevokeGrant(grant))
    {
      if grant !in grants { return Err(GrantPrecondition); }
      grants := grants - {grant};
      return Ok(Unit);
    }

    method PublishRoot(root: Root) returns (r: Reply)
      modifies this
      ensures (State(), r) == Step(old(State()), Op.PublishRoot(root))
    {
      if root in published { return Err(RootPrecondition(root)); }
      published := published + {root};
      return Ok(Unit);
    }

    method SetNamePtr(root: Root) returns (r: Reply)
      modifies this
      ensures (State(), r) == Step(old(State()), Op.SetNamePtr(root))
    {
      if root !in published { return Err(RootPrecondition(root)); }
      namePtr := Some(root);
      return Ok(Unit);
    }
  }
}
