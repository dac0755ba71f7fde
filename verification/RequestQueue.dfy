/** The queue of requests to join a cell, and the decisions its members take on them. */
module RequestQueue {
  import opened Wrappers

  type Node = string

  datatype Kind = NodeKind | UserKind

  datatype Status = Pending | Approved | Rejected

  datatype Request = Request(
    id: nat,
    kind: Kind,
    domain: Node,
    subject: Node,
    identity: Option<string>,
    custody: string,
    labels: seq<string>,
    status: Status,
    approver: Option<Node>)

  datatype SealedKey = SealedKey(cell: Node, sealedTo: Node, sealedBy: Node)

  datatype RequestError = UnknownRequest | NotPending | NotAuthorizedMember

  datatype Queue = Queue(
    cell: Node,
    members: set<Node>,
    requests: seq<Request>,
    nextId: nat,
    sealed: map<nat, SealedKey>,
    escrowed: set<nat>)

  datatype Op =
    | AddMember(member: Node)
    | Submit(kind: Kind, subject: Node, identity: Option<string>, custody: string, labels: seq<string>)
    | Approve(id: nat, member: Node)
    | Reject(id: nat, member: Node)

  datatype Reply = Done | Submitted(id: nat) | Delivered(key: Option<SealedKey>) | Refused(error: RequestError)

  function Initial(cell: Node, members: set<Node>): Queue {
    Queue(cell, members, [], 0, map[], {})
  }

  /** The first request with the id. */
  function IndexOf(requests: seq<Request>, id: nat): (r: Option<nat>)
    ensures r.Some? ==> r.value < |requests| && requests[r.value].id == id
  {
    if requests == [] then None
    else if requests[0].id == id then Some(0)
    else
      var rest := IndexOf(requests[1..], id);
      if rest.Some? then Some(rest.value + 1) else None
  }

  /** The request a decision applies to: the member is looked at first, then the id, then the status. */
  function Target(s: Queue, id: nat, member: Node): (r: Result<nat, RequestError>)
    ensures r.Ok? ==> r.value < |s.requests| && s.requests[r.value].id == id && s.requests[r.value].status == Pending
  {
    if member !in s.members then Err(NotAuthorizedMember)
    else
      var at := IndexOf(s.requests, id);
      if at.None? then Err(UnknownRequest)
      else if s.requests[at.value].status != Pending then Err(NotPending)
      else Ok(at.value)
  }

  function Decide(s: Queue, at: nat, status: Status, member: Node): Queue
    requires at < |s.requests|
  {
    s.(requests := s.requests[at := s.requests[at].(status := status, approver := Some(member))])
  }

  /** A request as it is submitted. */
  function Filed(cell: Node, op: Op, id: nat): Request
    requires op.Submit?
  {
    Request(id, op.kind, cell, op.subject, op.identity, op.custody, op.labels, Pending, None)
  }

  function Step(s: Queue, op: Op): (Queue, Reply) {
    match op
    case AddMember(m) => (s.(members := s.members + {m}), Done)
    case Submit(_, _, _, _, _) =>
      (s.(requests := s.requests + [Filed(s.cell, op, s.nextId)], nextId := s.nextId + 1), Submitted(s.nextId))
    case Approve(id, m) =>
      var at := Target(s, id, m);
      if at.Err? then (s, Refused(at.error))
      else
        var decided := Decide(s, at.value, Approved, m);
        if s.requests[at.value].kind == NodeKind then
          var key := SealedKey(s.cell, s.requests[at.value].subject, m);
          (decided.(sealed := s.sealed[id := key]), Delivered(Some(key)))
        else
          (decided.(escrowed := s.escrowed + {id}), Delivered(None))
    case Reject(id, m) =>
      var at := Target(s, id, m);
      if at.Err? then (s, Refused(at.error)) else (Decide(s, at.value, Rejected, m), Done)
  }

  function Run(cell: Node, members: set<Node>, ops: seq<Op>): Queue {
    if ops == [] then Initial(cell, members)
    else Step(Run(cell, members, ops[..|ops| - 1]), ops[|ops| - 1]).0
  }

  // ---- what every run keeps ----

  ghost predicate Numbered(s: Queue) {
    s.nextId == |s.requests| && forall i :: 0 <= i < |s.requests| ==> s.requests[i].id == i
  }

  /** Decided by a member and for this cell, or not decided at all. */
  ghost predicate Settled(s: Queue, r: Request) {
    && r.domain == s.cell
    && (r.status == Pending <==> r.approver.None?)
    && (r.approver.Some? ==> r.approver.value in s.members)
  }

  /** Key material is delivered for exactly the approved requests, to the one who asked, by the one who approved. */
  ghost predicate Backed(s: Queue, i: nat) {
    && (i in s.sealed <==> i < |s.requests| && s.requests[i].status == Approved && s.requests[i].kind == NodeKind)
    && (i in s.escrowed <==> i < |s.requests| && s.requests[i].status == Approved && s.requests[i].kind == UserKind)
    && (i in s.sealed ==> s.requests[i].approver.Some? &&
                          s.sealed[i] == SealedKey(s.cell, s.requests[i].subject, s.requests[i].approver.value))
  }

  ghost predicate Consistent(s: Queue) {
    && Numbered(s)
    && (forall i :: 0 <= i < |s.requests| ==> Settled(s, s.requests[i]))
    && (forall i: nat :: Backed(s, i))
  }

  lemma {:induction false} FindsFrom(requests: seq<Request>, base: nat, id: nat)
    requires forall i :: 0 <= i < |requests| ==> requests[i].id == base + i
    ensures IndexOf(requests, id) == if base <= id < base + |requests| then Some(id - base) else None
  {
    if requests != [] {
      FindsFrom(requests[1..], base + 1, id);
    }
  }

  /** On a numbered queue the id is the place. */
  lemma Finds(s: Queue, id: nat)
    requires Numbered(s)
    ensures IndexOf(s.requests, id) == if id < |s.requests| then Some(id) else None
  {
    FindsFrom(s.requests, 0, id);
  }

  lemma StepSettles(s: Queue, op: Op)
    requires Consistent(s)
    ensures Numbered(Step(s, op).0)
    ensures forall i :: 0 <= i < |Step(s, op).0.requests| ==> Settled(Step(s, op).0, Step(s, op).0.requests[i])
    ensures Step(s, op).0.cell == s.cell && s.members <= Step(s, op).0.members
  {
    if op.Approve? || op.Reject? {
      Finds(s, op.id);
    }
  }

  lemma StepBacks(s: Queue, op: Op, i: nat)
    requires Consistent(s)
    ensures Backed(Step(s, op).0, i)
  {
    assert Backed(s, i);
    if op.Approve? || op.Reject? {
      Finds(s, op.id);
    }
  }

  lemma StepKeeps(s: Queue, op: Op)
    requires Consistent(s)
    ensures Consistent(Step(s, op).0)
    ensures Step(s, op).0.cell == s.cell && s.members <= Step(s, op).0.members
  {
    StepSettles(s, op);
    forall i: nat
      ensures Backed(Step(s, op).0, i)
    {
      StepBacks(s, op, i);
    }
  }

  lemma {:induction false} Reachable(cell: Node, members: set<Node>, ops: seq<Op>)
    ensures Consistent(Run(cell, members, ops))
    ensures Run(cell, members, ops).cell == cell
  {
    if ops != [] {
      Reachable(cell, members, ops[..|ops| - 1]);
      StepKeeps(Run(cell, members, ops[..|ops| - 1]), ops[|ops| - 1]);
    }
  }

  // ---- the history decides ----

  function Submissions(ops: seq<Op>): nat {
    if ops == [] then 0 else Submissions(ops[..|ops| - 1]) + if ops[|ops| - 1].Submit? then 1 else 0
  }

  predicate IsMember(members: set<Node>, ops: seq<Op>, m: Node) {
    m in members || AddMember(m) in ops
  }

  predicate Decides(op: Op, id: nat) {
    (op.Approve? || op.Reject?) && op.id == id
  }

  /** The k-th operation is a member's decision on a request that exists by then. */
  predicate Counts(members: set<Node>, ops: seq<Op>, k: nat, id: nat) {
    && k < |ops| && Decides(ops[k], id)
    && IsMember(members, ops[..k], ops[k].member)
    && id < Submissions(ops[..k])
  }

  /** The decision that stands: the first that counts. */
  function Standing(members: set<Node>, ops: seq<Op>, id: nat): (r: Option<nat>)
    ensures r.Some? ==> Counts(members, ops, r.value, id)
    ensures r.Some? ==> forall k :: 0 <= k < r.value ==> !Counts(members, ops, k, id)
    ensures r.None? ==> forall k :: 0 <= k < |ops| ==> !Counts(members, ops, k, id)
  {
    if ops == [] then None
    else
      var n := |ops| - 1;
      var before := Standing(members, ops[..n], id);
      CountsGrows(members, ops, id);
      if before.Some? then before else if Counts(members, ops, n, id) then Some(n) else None
  }

  lemma CountsGrows(members: set<Node>, ops: seq<Op>, id: nat)
    requires ops != []
    ensures forall k :: 0 <= k < |ops| - 1 ==> (Counts(members, ops, k, id) <==> Counts(members, ops[..|ops| - 1], k, id))
  {
    forall k | 0 <= k < |ops| - 1
      ensures Counts(members, ops, k, id) <==> Counts(members, ops[..|ops| - 1], k, id)
    {
      assert ops[..|ops| - 1][..k] == ops[..k];
    }
  }

  lemma StepShape(s: Queue, op: Op)
    ensures |Step(s, op).0.requests| == |s.requests| + if op.Submit? then 1 else 0
    ensures Step(s, op).0.members == s.members + if op.AddMember? then {op.member} else {}
  {
  }

  /** The queue holds every submission, and its members are those it began with and those added. */
  lemma {:induction false} RunShape(cell: Node, members: set<Node>, ops: seq<Op>)
    ensures |Run(cell, members, ops).requests| == Submissions(ops)
    ensures forall m :: m in Run(cell, members, ops).members <==> IsMember(members, ops, m)
  {
    if ops != [] {
      var n := |ops| - 1;
      var s := Run(cell, members, ops[..n]);
      RunShape(cell, members, ops[..n]);
      StepShape(s, ops[n]);
      forall m
        ensures m in Step(s, ops[n]).0.members <==> IsMember(members, ops, m)
      {
        assert AddMember(m) in ops <==> AddMember(m) in ops[..n] || AddMember(m) == ops[n];
      }
    }
  }

  function Verdict(op: Op): Status {
    if op.Approve? then Approved else if op.Reject? then Rejected else Pending
  }

  /** A request after one more operation: decided by it, newly submitted by it, or as it was. */
  lemma RequestStep(s: Queue, op: Op, i: nat)
    requires Consistent(s)
    requires i < |Step(s, op).0.requests|
    ensures i < |s.requests| && s.requests[i].status == Pending && Decides(op, i) && op.member in s.members ==>
              Step(s, op).0.requests[i] == s.requests[i].(status := Verdict(op), approver := Some(op.member))
    ensures i < |s.requests| && !(s.requests[i].status == Pending && Decides(op, i) && op.member in s.members) ==>
              Step(s, op).0.requests[i] == s.requests[i]
    ensures i >= |s.requests| ==> op.Submit? && i == |s.requests| && Step(s, op).0.requests[i] == Filed(s.cell, op, i)
  {
    if op.Approve? || op.Reject? {
      Finds(s, op.id);
    }
  }

  /** The status and the approver of a request are those of the first decision that counts; a request no counting
      decision names is pending. So a decision, once taken, stands whatever is tried after it. */
  lemma {:induction false} FirstDecisionStands(cell: Node, members: set<Node>, ops: seq<Op>, i: nat)
    requires i < |Run(cell, members, ops).requests|
    ensures var r := Run(cell, members, ops).requests[i];
            match Standing(members, ops, i)
            case None => r.status == Pending && r.approver == None
            case Some(k) =>
              r.status == (if ops[k].Approve? then Approved else Rejected) && r.approver == Some(ops[k].member)
  {
    if ops != [] {
      var n := |ops| - 1;
      var s := Run(cell, members, ops[..n]);
      Reachable(cell, members, ops[..n]);
      RunShape(cell, members, ops[..n]);
      RequestStep(s, ops[n], i);
      CountsGrows(members, ops, i);
      if i < |s.requests| {
        FirstDecisionStands(cell, members, ops[..n], i);
      } else {
        TooEarly(members, ops[..n], i);
      }
    }
  }

  /** No decision counts for a request that is not there yet. */
  lemma {:induction false} TooEarly(members: set<Node>, ops: seq<Op>, i: nat)
    requires Submissions(ops) <= i
    ensures Standing(members, ops, i) == None
  {
    if ops != [] {
      TooEarly(members, ops[..|ops| - 1], i);
    }
  }

  /** The place in the history where request i was submitted. */
  function SubmittedAt(ops: seq<Op>, i: nat): (k: nat)
    requires i < Submissions(ops)
    ensures k < |ops| && ops[k].Submit? && Submissions(ops[..k]) == i
  {
    var n := |ops| - 1;
    if i < Submissions(ops[..n]) then
      var k := SubmittedAt(ops[..n], i);
      assert ops[..n][..k] == ops[..k];
      k
    else n
  }

  /** Apart from its decision a request stays what was submitted. */
  lemma {:induction false} RequestIsAsFiled(cell: Node, members: set<Node>, ops: seq<Op>, i: nat)
    requires i < Submissions(ops)
    ensures i < |Run(cell, members, ops).requests|
    ensures var r, op := Run(cell, members, ops).requests[i], ops[SubmittedAt(ops, i)];
            && r.id == i && r.domain == cell && r.kind == op.kind && r.subject == op.subject
            && r.identity == op.identity && r.custody == op.custody && r.labels == op.labels
  {
    var n := |ops| - 1;
    var s := Run(cell, members, ops[..n]);
    RunShape(cell, members, ops);
    RunShape(cell, members, ops[..n]);
    Reachable(cell, members, ops[..n]);
    RequestStep(s, ops[n], i);
    if i < |s.requests| {
      RequestIsAsFiled(cell, members, ops[..n], i);
    }
  }

  predicate StandsApproved(members: set<Node>, ops: seq<Op>, i: nat) {
    var k := Standing(members, ops, i);
    k.Some? && ops[k.value].Approve?
  }

  /** A cell key is sealed for exactly the node requests whose standing decision is an approval, to the node that
      asked and by the member that approved; a user request is escrowed on exactly the same terms. */
  lemma DeliveryIsApproval(cell: Node, members: set<Node>, ops: seq<Op>, i: nat)
    ensures var s := Run(cell, members, ops);
            && (i in s.sealed <==> i < Submissions(ops) && ops[SubmittedAt(ops, i)].kind == NodeKind && StandsApproved(members, ops, i))
            && (i in s.escrowed <==> i < Submissions(ops) && ops[SubmittedAt(ops, i)].kind == UserKind && StandsApproved(members, ops, i))
            && (i in s.sealed ==>
                  s.sealed[i] == SealedKey(cell, ops[SubmittedAt(ops, i)].subject, ops[Standing(members, ops, i).value].member))
  {
    var s := Run(cell, members, ops);
    Reachable(cell, members, ops);
    RunShape(cell, members, ops);
    assert Backed(s, i);
    if i < |s.requests| {
      FirstDecisionStands(cell, members, ops, i);
      RequestIsAsFiled(cell, members, ops, i);
    }
  }

  /** A submission is answered with the number of submissions before it, and appends a pending request. */
  lemma SubmitReplies(cell: Node, members: set<Node>, ops: seq<Op>, op: Op)
    requires op.Submit?
    ensures var s := Run(cell, members, ops);
            var (t, r) := Step(s, op);
            && r == Submitted(Submissions(ops))
            && |t.requests| == Submissions(ops) + 1 && t.requests[..Submissions(ops)] == s.requests
            && t.requests[Submissions(ops)].status == Pending && t.requests[Submissions(ops)].approver == None
            && t.members == s.members && t.sealed == s.sealed && t.escrowed == s.escrowed
  {
    Reachable(cell, members, ops);
    RunShape(cell, members, ops);
  }

  /** A decision that goes through is answered with the key sealed to the requester by the approver for a node, with
      nothing for a user, and plainly for a rejection. */
  lemma DecisionReplies(cell: Node, members: set<Node>, ops: seq<Op>, op: Op)
    requires (op.Approve? || op.Reject?) && IsMember(members, ops, op.member)
    requires op.id < Submissions(ops) && Standing(members, ops, op.id).None?
    ensures var filed := ops[SubmittedAt(ops, op.id)];
            Step(Run(cell, members, ops), op).1 ==
            if op.Reject? then Done
            else Delivered(if filed.kind == NodeKind then Some(SealedKey(cell, filed.subject, op.member)) else None)
  {
    var s := Run(cell, members, ops);
    Reachable(cell, members, ops);
    RunShape(cell, members, ops);
    Finds(s, op.id);
    FirstDecisionStands(cell, members, ops, op.id);
    RequestIsAsFiled(cell, members, ops, op.id);
  }

  /** A decision is refused for exactly one reason: no member decides, else no such request, else already decided. */
  lemma RefusedIff(cell: Node, members: set<Node>, ops: seq<Op>, op: Op)
    requires op.Approve? || op.Reject?
    ensures var reply := Step(Run(cell, members, ops), op).1;
            && (reply == Refused(NotAuthorizedMember) <==> !IsMember(members, ops, op.member))
            && (reply == Refused(UnknownRequest) <==> IsMember(members, ops, op.member) && Submissions(ops) <= op.id)
            && (reply == Refused(NotPending) <==>
                IsMember(members, ops, op.member) && op.id < Submissions(ops) && Standing(members, ops, op.id).Some?)
  {
    var s := Run(cell, members, ops);
    Reachable(cell, members, ops);
    RunShape(cell, members, ops);
    Finds(s, op.id);
    if op.id < |s.requests| {
      FirstDecisionStands(cell, members, ops, op.id);
    }
  }

  // ---- nothing is lost ----

  function Tally(requests: seq<Request>, status: Status): nat {
    if requests == [] then 0
    else Tally(requests[..|requests| - 1], status) + if requests[|requests| - 1].status == status then 1 else 0
  }

  function One(b: bool): nat { if b then 1 else 0 }

  lemma {:induction false} TallyUpdate(requests: seq<Request>, at: nat, r: Request, status: Status)
    requires at < |requests|
    ensures Tally(requests[at := r], status) + One(requests[at].status == status) == Tally(requests, status) + One(r.status == status)
  {
    var n := |requests| - 1;
    var updated := requests[at := r];
    if at == n {
      assert updated[..n] == requests[..n];
    } else {
      assert updated[..n] == requests[..n][at := r];
      TallyUpdate(requests[..n], at, r, status);
    }
  }

  ghost predicate Balanced(s: Queue) {
    && Tally(s.requests, Pending) + Tally(s.requests, Approved) + Tally(s.requests, Rejected) == |s.requests|
    && |s.sealed| + |s.escrowed| == Tally(s.requests, Approved)
  }

  lemma TallyAppend(requests: seq<Request>, r: Request, status: Status)
    ensures Tally(requests + [r], status) == Tally(requests, status) + One(r.status == status)
  {
    assert (requests + [r])[..|requests|] == requests;
  }

  lemma BalanceSubmit(s: Queue, op: Op)
    requires Consistent(s) && Balanced(s) && op.Submit?
    ensures Balanced(Step(s, op).0)
  {
    var r := Filed(s.cell, op, s.nextId);
    TallyAppend(s.requests, r, Pending);
    TallyAppend(s.requests, r, Approved);
    TallyAppend(s.requests, r, Rejected);
  }

  /** How a decision moves one request between the tallies. */
  lemma DecideTallies(requests: seq<Request>, at: nat, r: Request)
    requires at < |requests| && requests[at].status == Pending && r.status != Pending
    ensures var after := requests[at := r];
            && Tally(after, Pending) + 1 == Tally(requests, Pending)
            && Tally(after, Approved) == Tally(requests, Approved) + One(r.status == Approved)
            && Tally(after, Rejected) == Tally(requests, Rejected) + One(r.status == Rejected)
  {
    TallyUpdate(requests, at, r, Pending);
    TallyUpdate(requests, at, r, Approved);
    TallyUpdate(requests, at, r, Rejected);
  }

  lemma SealedGrows(sealed: map<nat, SealedKey>, id: nat, key: SealedKey)
    requires id !in sealed
    ensures |sealed[id := key]| == |sealed| + 1
  {
  }

  /** A pending request has no key material yet. */
  lemma NothingDelivered(s: Queue, id: nat)
    requires Consistent(s) && id < |s.requests| && s.requests[id].status == Pending
    ensures id !in s.sealed && id !in s.escrowed
  {
    assert Backed(s, id);
  }

  /** What a decision that goes through does, field by field. */
  lemma DecideShape(s: Queue, op: Op)
    requires Consistent(s) && (op.Approve? || op.Reject?) && Target(s, op.id, op.member).Ok?
    ensures op.id < |s.requests| && s.requests[op.id].status == Pending
    ensures var t, was := Step(s, op).0, s.requests[op.id];
            && t.requests == s.requests[op.id := was.(status := Verdict(op), approver := Some(op.member))]
            && t.sealed == (if op.Approve? && was.kind == NodeKind
                            then s.sealed[op.id := SealedKey(s.cell, was.subject, op.member)] else s.sealed)
            && t.escrowed == (if op.Approve? && was.kind == UserKind then s.escrowed + {op.id} else s.escrowed)
  {
    Finds(s, op.id);
  }

  lemma BalanceDecide(s: Queue, op: Op)
    requires Consistent(s) && Balanced(s) && (op.Approve? || op.Reject?)
    requires Target(s, op.id, op.member).Ok?
    ensures Balanced(Step(s, op).0)
  {
    DecideShape(s, op);
    NothingDelivered(s, op.id);
    var was := s.requests[op.id];
    DecideTallies(s.requests, op.id, was.(status := Verdict(op), approver := Some(op.member)));
    SealedGrows(s.sealed, op.id, SealedKey(s.cell, was.subject, op.member));
  }

  lemma BalanceStep(s: Queue, op: Op)
    requires Consistent(s) && Balanced(s)
    ensures Balanced(Step(s, op).0)
  {
    if op.Submit? {
      BalanceSubmit(s, op);
    } else if (op.Approve? || op.Reject?) && Target(s, op.id, op.member).Ok? {
      BalanceDecide(s, op);
    }
  }

  /** Every submission is in exactly one of the three states, and every approval delivered exactly once. */
  lemma RequestsAreConserved(cell: Node, members: set<Node>, ops: seq<Op>)
    ensures var s := Run(cell, members, ops);
            && Tally(s.requests, Pending) + Tally(s.requests, Approved) + Tally(s.requests, Rejected) == Submissions(ops)
            && |s.sealed| + |s.escrowed| == Tally(s.requests, Approved)
  {
    RunShape(cell, members, ops);
    BalancedRun(cell, members, ops);
  }

  lemma {:induction false} BalancedRun(cell: Node, members: set<Node>, ops: seq<Op>)
    ensures Balanced(Run(cell, members, ops))
  {
    if ops != [] {
      var n := |ops| - 1;
      BalancedRun(cell, members, ops[..n]);
      Reachable(cell, members, ops[..n]);
      BalanceStep(Run(cell, members, ops[..n]), ops[n]);
    }
  }

  /** The waiting requests, in submission order. */
  function PendingOf(requests: seq<Request>): seq<Request> {
    if requests == [] then []
    else
      var n := |requests| - 1;
      PendingOf(requests[..n]) + if requests[n].status == Pending then [requests[n]] else []
  }

  lemma {:induction false} PendingTally(requests: seq<Request>)
    ensures |PendingOf(requests)| == Tally(requests, Pending)
  {
    if requests != [] {
      PendingTally(requests[..|requests| - 1]);
    }
  }

  /** The listing holds exactly the pending requests, by ascending id. */
  lemma {:induction false} PendingMeaning(requests: seq<Request>)
    requires forall i :: 0 <= i < |requests| ==> requests[i].id == i
    ensures forall r :: r in PendingOf(requests) <==> r in requests && r.status == Pending
    ensures forall i :: 0 <= i < |PendingOf(requests)| ==> PendingOf(requests)[i].id < |requests|
    ensures forall i, j :: 0 <= i < j < |PendingOf(requests)| ==> PendingOf(requests)[i].id < PendingOf(requests)[j].id
  {
    if requests != [] {
      var n := |requests| - 1;
      PendingMeaning(requests[..n]);
      assert requests == requests[..n] + [requests[n]];
    }
  }

  // ---- approving one's own request ----

  /** A requester can approve its own pending request exactly when it is already a member. */
  lemma SelfApprovalIff(cell: Node, members: set<Node>, ops: seq<Op>, i: nat)
    requires i < |Run(cell, members, ops).requests|
    ensures var s := Run(cell, members, ops);
            Step(s, Approve(i, s.requests[i].subject)).1.Delivered? <==>
            s.requests[i].status == Pending && IsMember(members, ops, s.requests[i].subject)
  {
    Reachable(cell, members, ops);
    RunShape(cell, members, ops);
    Finds(Run(cell, members, ops), i);
  }

  /** A member that asks for itself and approves itself is let through. */
  lemma MemberApprovesItself(cell: Node, m: Node)
    ensures var s := Run(cell, {m}, [Submit(NodeKind, m, None, "", []), Approve(0, m)]);
            0 in s.sealed && s.sealed[0] == SealedKey(cell, m, m)
  {
    var ops := [Submit(NodeKind, m, None, "", []), Approve(0, m)];
    assert ops[..1] == [ops[0]];
    assert ops[..1][..0] == [];
    assert Run(cell, {m}, ops[..1]) == Step(Initial(cell, {m}), ops[0]).0;
  }

  // ---- the queue as it is kept ----

  class BootstrapRequestQueue {
    const cell: Node
    var members: set<Node>
    var requests: seq<Request>
    var nextId: nat
    var sealed: map<nat, SealedKey>
    var escrowed: set<nat>

    ghost function Abstract(): Queue
      reads this
    {
      Queue(cell, members, requests, nextId, sealed, escrowed)
    }

    constructor (cell: Node, members: set<Node>)
      ensures Abstract() == Initial(cell, members)
    {
      this.cell := cell;
      this.members := members;
      requests := [];
      nextId := 0;
      sealed := map[];
      escrowed := {};
    }

    method Admit(member: Node)
      modifies this`members
      ensures Abstract() == Step(old(Abstract()), AddMember(member)).0
    {
      members := members + {member};
    }

    method SubmitRequest(kind: Kind, subject: Node, identity: Option<string>, custody: string, labels: seq<string>)
      returns (id: nat)
      modifies this`requests, this`nextId
      ensures (Abstract(), Submitted(id)) == Step(old(Abstract()), Submit(kind, subject, identity, custody, labels))
    {
      id := nextId;
      nextId := nextId + 1;
      requests := requests + [Request(id, kind, cell, subject, identity, custody, labels, Pending, None)];
    }

    method ListPending() returns (waiting: seq<Request>)
      ensures waiting == PendingOf(requests) && |waiting| == Tally(requests, Pending)
    {
      waiting := [];
      for i := 0 to |requests|
        invariant waiting == PendingOf(requests[..i])
      {
        assert requests[..i + 1][..i] == requests[..i];
        if requests[i].status == Pending {
          waiting := waiting + [requests[i]];
        }
      }
      assert requests[..|requests|] == requests;
      PendingTally(requests);
    }

    method Position(id: nat) returns (at: Option<nat>)
      ensures at == IndexOf(requests, id)
    {
      assert requests[0..] == requests;
      for i := 0 to |requests|
        invariant IndexOf(requests, id) ==
                  (var rest := IndexOf(requests[i..], id); if rest.Some? then Some(rest.value + i) else None)
      {
        if requests[i].id == id {
          return Some(i);
        }
        assert requests[i..][1..] == requests[i + 1..];
      }
      return None;
    }

    method ApproveRequest(id: nat, member: Node) returns (reply: Reply)
      modifies this`requests, this`sealed, this`escrowed
      ensures (Abstract(), reply) == Step(old(Abstract()), Approve(id, member))
    {
      if member !in members {
        return Refused(NotAuthorizedMember);
      }
      var at := Position(id);
      if at.None? {
        return Refused(UnknownRequest);
      }
      var request := requests[at.value];
      if request.status != Pending {
        return Refused(NotPending);
      }
      requests := requests[at.value := request.(status := Approved, approver := Some(member))];
      match request.kind
      case NodeKind =>
        var key := SealedKey(cell, request.subject, member);
        sealed := sealed[id := key];
        reply := Delivered(Some(key));
      case UserKind =>
        escrowed := escrowed + {id};
        reply := Delivered(None);
    }

    method RejectRequest(id: nat, member: Node) returns (reply: Reply)
      modifies this`requests
      ensures (Abstract(), reply) == Step(old(Abstract()), Reject(id, member))
    {
      if member !in members {
        return Refused(NotAuthorizedMember);
      }
      var at := Position(id);
      if at.None? {
        return Refused(UnknownRequest);
      }
      var request := requests[at.value];
      if request.status != Pending {
        return Refused(NotPending);
      }
      requests := requests[at.value := request.(status := Rejected, approver := Some(member))];
      reply := Done;
    }
  }
}
