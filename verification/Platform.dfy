/** The platform log: signed applies of resource manifests into a content-addressed store, read back
    as a folded view, a reverse search and a revision history. */
module Platform {
  import opened Wrappers

  type NodeId = string
  type Hash = string
  type Capability = string
  type Authority = string

  datatype ResourceKey = ResourceKey(apiVersion: string, kind: string, name: string)

  /** A manifest body: the resource it names and the rest of its content. */
  datatype Crd = Crd(key: ResourceKey, content: string)

  datatype Envelope = Envelope(body: Crd, signer: NodeId, parents: set<Hash>, scope: set<Capability>)

  /** An event is named by its author and its position in that author's chain. */
  datatype EventId = EventId(author: NodeId, seqNo: nat)

  datatype ApplyError = Schema(reason: string) | Unauthorized(actor: NodeId, capability: Capability)

  datatype Applied = Applied(event: EventId, contentHash: Hash)

  datatype Revision = Revision(event: EventId, signer: NodeId, contentHash: Hash)

  /** The schema check, the authorization decider and the content hash the platform is built on. */
  datatype Deciders = Deciders(
    validate: Crd -> Option<string>,
    authorized: (Authority, NodeId, Capability) -> bool,
    hash: Crd -> Hash)

  ghost predicate CollisionFree(d: Deciders) {
    forall a, b :: d.hash(a) == d.hash(b) ==> a == b
  }

  datatype State = State(
    authority: Authority,
    heights: map<NodeId, nat>,
    store: map<Hash, Envelope>,
    applied: seq<Hash>,
    appliedEvents: seq<EventId>)

  datatype Op =
    | Apply(actor: NodeId, capability: Capability, body: Crd, parents: set<Hash>, scope: set<Capability>)
    | SetAuthority(authority: Authority)

  function Preview(d: Deciders, s: State, actor: NodeId, capability: Capability, body: Crd): Result<Hash, ApplyError> {
    match d.validate(body)
    case Some(reason) => Err(Schema(reason))
    case None =>
      if !d.authorized(s.authority, actor, capability) then Err(Unauthorized(actor, capability)) else Ok(d.hash(body))
  }

  function NextEvent(s: State, author: NodeId): EventId {
    EventId(author, if author in s.heights then s.heights[author] else 0)
  }

  /** What an admitted apply records. */
  function Recorded(d: Deciders, s: State, op: Op): State
    requires op.Apply?
  {
    var hash, event := d.hash(op.body), NextEvent(s, op.actor);
    s.(heights := s.heights[op.actor := event.seqNo + 1],
       store := s.store[hash := Envelope(op.body, op.actor, op.parents, op.scope)],
       applied := s.applied + [hash],
       appliedEvents := s.appliedEvents + [event])
  }

  function Admitted(d: Deciders, s: State, op: Op): bool {
    op.Apply? && Preview(d, s, op.actor, op.capability, op.body).Ok?
  }

  function Step(d: Deciders, s: State, op: Op): State {
    match op
    case SetAuthority(authority) => s.(authority := authority)
    case Apply(_, _, _, _, _) => if Admitted(d, s, op) then Recorded(d, s, op) else s
  }

  function Run(d: Deciders, authority: Authority, ops: seq<Op>): State {
    if ops == [] then State(authority, map[], map[], [], [])
    else Step(d, Run(d, authority, ops[..|ops| - 1]), ops[|ops| - 1])
  }

  function At(d: Deciders, authority: Authority, ops: seq<Op>, i: nat): State
    requires i <= |ops|
  {
    Run(d, authority, ops[..i])
  }

  // ---- three readings of one log ----

  /** The manifest with this hash names this resource. */
  predicate Names(store: map<Hash, Envelope>, hash: Hash, key: ResourceKey) {
    hash in store && store[hash].body.key == key
  }

  /** Forward fold: the latest apply of each resource wins. */
  function View(store: map<Hash, Envelope>, applied: seq<Hash>): map<ResourceKey, Envelope> {
    if applied == [] then map[]
    else
      var view, hash := View(store, applied[..|applied| - 1]), applied[|applied| - 1];
      if hash in store then view[store[hash].body.key := store[hash]] else view
  }

  function Get(s: State, key: ResourceKey): Option<Crd> {
    var view := View(s.store, s.applied);
    if key in view then Some(view[key].body) else None
  }

  /** Reverse search: the event of the last apply naming the resource. */
  function EventCid(store: map<Hash, Envelope>, applied: seq<Hash>, events: seq<EventId>, key: ResourceKey)
    : Option<EventId>
    requires |applied| == |events|
  {
    if applied == [] then None
    else
      var last := |applied| - 1;
      if Names(store, applied[last], key) then Some(events[last])
      else EventCid(store, applied[..last], events[..last], key)
  }

  /** Forward filter: every apply naming the resource, oldest first. */
  function History(store: map<Hash, Envelope>, applied: seq<Hash>, events: seq<EventId>, key: ResourceKey)
    : seq<Revision>
    requires |applied| == |events|
  {
    if applied == [] then []
    else
      var last := |applied| - 1;
      var before := History(store, applied[..last], events[..last], key);
      if Names(store, applied[last], key)
      then before + [Revision(events[last], store[applied[last]].signer, applied[last])] else before
  }

  function Manifest(s: State, hash: Hash): Option<Crd> {
    if hash in s.store then Some(s.store[hash].body) else None
  }

  // ---- what every run keeps ----

  ghost predicate Consistent(d: Deciders, s: State) {
    && |s.applied| == |s.appliedEvents|
    && (forall h :: h in s.store ==> d.hash(s.store[h].body) == h)
    && (forall i :: 0 <= i < |s.applied| ==> s.applied[i] in s.store)
    && (forall i :: 0 <= i < |s.appliedEvents| ==>
          var e := s.appliedEvents[i]; e.author in s.heights && e.seqNo < s.heights[e.author])
    && (forall i, j :: 0 <= i < j < |s.appliedEvents| ==> s.appliedEvents[i] != s.appliedEvents[j])
  }

  lemma RecordedKeeps(d: Deciders, s: State, op: Op)
    requires op.Apply? && Consistent(d, s)
    ensures Consistent(d, Recorded(d, s, op))
  {
  }

  lemma {:induction false} Reachable(d: Deciders, authority: Authority, ops: seq<Op>)
    ensures Consistent(d, Run(d, authority, ops))
  {
    if ops != [] {
      var s, op := Run(d, authority, ops[..|ops| - 1]), ops[|ops| - 1];
      Reachable(d, authority, ops[..|ops| - 1]);
      if Admitted(d, s, op) { RecordedKeeps(d, s, op); }
    }
  }

  // ---- who is let through, read off the operations ----

  /** The authority last set, or the one the plane began with. */
  function LastAuthority(authority: Authority, ops: seq<Op>): Authority {
    if ops == [] then authority
    else if ops[|ops| - 1].SetAuthority? then ops[|ops| - 1].authority
    else LastAuthority(authority, ops[..|ops| - 1])
  }

  /** Step `i` applies a valid body, by an actor the authority then in force allows the capability. */
  ghost predicate Entitled(d: Deciders, authority: Authority, ops: seq<Op>, i: nat) {
    && i < |ops| && ops[i].Apply? && d.validate(ops[i].body).None?
    && d.authorized(LastAuthority(authority, ops[..i]), ops[i].actor, ops[i].capability)
  }

  lemma {:induction false} AuthorityIsLast(d: Deciders, authority: Authority, ops: seq<Op>)
    ensures Run(d, authority, ops).authority == LastAuthority(authority, ops)
  {
    if ops != [] {
      AuthorityIsLast(d, authority, ops[..|ops| - 1]);
    }
  }

  lemma AdmittedIff(d: Deciders, authority: Authority, ops: seq<Op>, i: nat)
    requires i < |ops|
    ensures Admitted(d, At(d, authority, ops, i), ops[i]) <==> Entitled(d, authority, ops, i)
  {
    AuthorityIsLast(d, authority, ops[..i]);
  }

  /** An apply is refused for the reason its schema gives, else for an actor the authority in force does not allow the
      capability; otherwise it is let through under the hash of its body. */
  lemma PreviewReplies(d: Deciders, authority: Authority, ops: seq<Op>, actor: NodeId, capability: Capability, body: Crd)
    ensures var r := Preview(d, Run(d, authority, ops), actor, capability, body);
            var allowed := d.authorized(LastAuthority(authority, ops), actor, capability);
            && (forall reason :: r == Err(Schema(reason)) <==> d.validate(body) == Some(reason))
            && (r == Err(Unauthorized(actor, capability)) <==> d.validate(body).None? && !allowed)
            && (r == Ok(d.hash(body)) <==> d.validate(body).None? && allowed)
            && (r.Ok? <==> d.validate(body).None? && allowed)
  {
    AuthorityIsLast(d, authority, ops);
  }

  /** How many applies of this actor were let through. */
  ghost function AppliesBy(d: Deciders, authority: Authority, ops: seq<Op>, actor: NodeId): nat {
    if ops == [] then 0
    else
      var n := |ops| - 1;
      AppliesBy(d, authority, ops[..n], actor) + if Entitled(d, authority, ops, n) && ops[n].actor == actor then 1 else 0
  }

  lemma HeightStep(d: Deciders, s: State, op: Op, actor: NodeId)
    ensures NextEvent(Step(d, s, op), actor) ==
            EventId(actor, NextEvent(s, actor).seqNo + if Admitted(d, s, op) && op.actor == actor then 1 else 0)
  {
  }

  /** The next event of an actor is numbered by the applies of theirs let through so far. */
  lemma {:induction false} EventsAreNumbered(d: Deciders, authority: Authority, ops: seq<Op>, actor: NodeId)
    ensures NextEvent(Run(d, authority, ops), actor) == EventId(actor, AppliesBy(d, authority, ops, actor))
  {
    if ops != [] {
      var n := |ops| - 1;
      EventsAreNumbered(d, authority, ops[..n], actor);
      AdmittedIff(d, authority, ops, n);
      HeightStep(d, Run(d, authority, ops[..n]), ops[n], actor);
    }
  }

  /** The event step `i` is recorded under, if it is let through. */
  ghost function EventOf(d: Deciders, authority: Authority, ops: seq<Op>, i: nat): EventId
    requires i < |ops| && ops[i].Apply?
  {
    EventId(ops[i].actor, AppliesBy(d, authority, ops[..i], ops[i].actor))
  }

  // ---- the three readings agree ----

  lemma {:induction false} ReadingsAgreeOn(
    store: map<Hash, Envelope>, applied: seq<Hash>, events: seq<EventId>, key: ResourceKey)
    requires |applied| == |events|
    ensures var h, cid, view := History(store, applied, events, key), EventCid(store, applied, events, key), View(store, applied);
            && (key in view <==> h != []) && (cid.Some? <==> h != [])
            && (h != [] ==>
                  var last := h[|h| - 1];
                  && cid == Some(last.event) && Names(store, last.contentHash, key)
                  && view[key] == store[last.contentHash] && last.signer == view[key].signer)
    decreases |applied|
  {
    if applied != [] {
      ReadingsAgreeOn(store, applied[..|applied| - 1], events[..|applied| - 1], key);
    }
  }

  /** On every run the view, the event search and the history name the same last revision, and the
      view holds exactly the resources with a history. */
  lemma ReadingsAgree(d: Deciders, authority: Authority, ops: seq<Op>, key: ResourceKey)
    ensures var s := Run(d, authority, ops);
            && |s.applied| == |s.appliedEvents|
            && var h := History(s.store, s.applied, s.appliedEvents, key);
               && (Get(s, key).Some? <==> h != [])
               && (EventCid(s.store, s.applied, s.appliedEvents, key).Some? <==> h != [])
               && (h != [] ==>
                     && EventCid(s.store, s.applied, s.appliedEvents, key) == Some(h[|h| - 1].event)
                     && Get(s, key) == Manifest(s, h[|h| - 1].contentHash)
                     && d.hash(Get(s, key).value) == h[|h| - 1].contentHash)
  {
    var s := Run(d, authority, ops);
    Reachable(d, authority, ops);
    ReadingsAgreeOn(s.store, s.applied, s.appliedEvents, key);
  }

  // ---- an apply adds one revision and disturbs no other reference ----

  /** The durable part of a history: event and content hash of each revision. */
  function Refs(h: seq<Revision>): seq<(EventId, Hash)> {
    if h == [] then [] else Refs(h[..|h| - 1]) + [(h[|h| - 1].event, h[|h| - 1].contentHash)]
  }

  /** Re-sealing bodies already stored changes no resource key, so no reading but the signers. */
  lemma {:induction false} SameBodies(
    store: map<Hash, Envelope>, store': map<Hash, Envelope>, applied: seq<Hash>, events: seq<EventId>, key: ResourceKey)
    requires |applied| == |events|
    requires forall i :: 0 <= i < |applied| ==>
               applied[i] in store && applied[i] in store' && store[applied[i]].body == store'[applied[i]].body
    ensures Refs(History(store, applied, events, key)) == Refs(History(store', applied, events, key))
    ensures key in View(store, applied) <==> key in View(store', applied)
    ensures key in View(store, applied) ==> View(store, applied)[key].body == View(store', applied)[key].body
    decreases |applied|
  {
    if applied != [] {
      var last := |applied| - 1;
      SameBodies(store, store', applied[..last], events[..last], key);
      var h, h' := History(store, applied, events, key), History(store', applied, events, key);
      if Names(store, applied[last], key) {
        assert h[..|h| - 1] == History(store, applied[..last], events[..last], key);
        assert h'[..|h'| - 1] == History(store', applied[..last], events[..last], key);
      }
    }
  }

  lemma RefsAppend(h: seq<Revision>, r: Revision)
    ensures Refs(h + [r]) == Refs(h) + [(r.event, r.contentHash)]
  {
    assert (h + [r])[..|h|] == h;
  }

  /** An admitted apply of `body` puts it in force, appends one revision to its history, and leaves
      every earlier event and hash, and every other resource, as they were. */
  lemma ApplyAddsOneRevision(d: Deciders, s: State, op: Op, key: ResourceKey)
    requires CollisionFree(d) && Consistent(d, s) && Admitted(d, s, op)
    ensures var t := Step(d, s, op);
            && |t.applied| == |t.appliedEvents|
            && var h, h' := History(s.store, s.applied, s.appliedEvents, key), History(t.store, t.applied, t.appliedEvents, key);
               if key == op.body.key then
                 Get(t, key) == Some(op.body) && Refs(h') == Refs(h) + [(NextEvent(s, op.actor), d.hash(op.body))]
               else
                 Get(t, key) == Get(s, key) && Refs(h') == Refs(h)
  {
    var t := Step(d, s, op);
    SameBodies(s.store, t.store, s.applied, s.appliedEvents, key);
    assert t.applied[..|t.applied| - 1] == s.applied && t.appliedEvents[..|t.applied| - 1] == s.appliedEvents;
    RefsAppend(History(t.store, s.applied, s.appliedEvents, key), Revision(NextEvent(s, op.actor), op.actor, d.hash(op.body)));
  }

  lemma {:induction false} HistoryNames(
    store: map<Hash, Envelope>, applied: seq<Hash>, events: seq<EventId>, key: ResourceKey, k: nat)
    requires |applied| == |events| && k < |History(store, applied, events, key)|
    ensures Names(store, History(store, applied, events, key)[k].contentHash, key)
    decreases |applied|
  {
    var last := |applied| - 1;
    if k < |History(store, applied[..last], events[..last], key)| {
      HistoryNames(store, applied[..last], events[..last], key, k);
    }
  }

  /** A rollback: fetching any past revision's body by its reference and applying it, where the
      deciders admit it, makes that body current again and rewrites no earlier reference. */
  lemma RollbackRestores(
    d: Deciders, authority: Authority, ops: seq<Op>, key: ResourceKey, k: nat, actor: NodeId, capability: Capability)
    requires CollisionFree(d)
    requires |Run(d, authority, ops).applied| == |Run(d, authority, ops).appliedEvents|
    requires k < |History(Run(d, authority, ops).store, Run(d, authority, ops).applied, Run(d, authority, ops).appliedEvents, key)|
    ensures var s := Run(d, authority, ops);
            var h := History(s.store, s.applied, s.appliedEvents, key);
            && Manifest(s, h[k].contentHash).Some? && Manifest(s, h[k].contentHash).value.key == key
            && var body := Manifest(s, h[k].contentHash).value;
               var op := Apply(actor, capability, body, {}, {});
               Admitted(d, s, op) ==>
                 var t := Step(d, s, op);
                 && |t.applied| == |t.appliedEvents| && Get(t, key) == Some(body)
                 && Refs(History(t.store, t.applied, t.appliedEvents, key)) ==
                    Refs(h) + [(NextEvent(s, actor), h[k].contentHash)]
  {
    var s := Run(d, authority, ops);
    Reachable(d, authority, ops);
    var hash := History(s.store, s.applied, s.appliedEvents, key)[k].contentHash;
    HistoryNames(s.store, s.applied, s.appliedEvents, key, k);
    var op := Apply(actor, capability, s.store[hash].body, {}, {});
    if Admitted(d, s, op) {
      ApplyAddsOneRevision(d, s, op, key);
    }
  }

  // ---- whose signature a revision shows ----

  /** Step `i` is the last admitted apply of the body with this hash. */
  ghost predicate LastSealed(d: Deciders, authority: Authority, ops: seq<Op>, i: nat, hash: Hash) {
    && i < |ops| && Seals(d, authority, ops, i, hash)
    && forall j :: i < j < |ops| ==> !Seals(d, authority, ops, j, hash)
  }

  ghost predicate Seals(d: Deciders, authority: Authority, ops: seq<Op>, i: nat, hash: Hash)
    requires i < |ops|
  {
    Entitled(d, authority, ops, i) && d.hash(ops[i].body) == hash
  }

  /** The stored envelope of a hash is the one of its last admitted apply. */
  lemma {:induction false} EnvelopeIsLastSealed(d: Deciders, authority: Authority, ops: seq<Op>, i: nat, hash: Hash)
    requires LastSealed(d, authority, ops, i, hash)
    ensures var store := Run(d, authority, ops).store;
            hash in store && store[hash] == Envelope(ops[i].body, ops[i].actor, ops[i].parents, ops[i].scope)
    decreases |ops|
  {
    var before := ops[..|ops| - 1];
    AdmittedIff(d, authority, ops, |ops| - 1);
    if i < |ops| - 1 {
      forall j | 0 <= j < |before|
        ensures Seals(d, authority, before, j, hash) <==> Seals(d, authority, ops, j, hash)
      {
        assert before[..j] == ops[..j];
      }
      EnvelopeIsLastSealed(d, authority, before, i, hash);
      assert !Seals(d, authority, ops, |ops| - 1, hash);
    }
  }

  lemma {:induction false} LastSealedExists(d: Deciders, authority: Authority, ops: seq<Op>, i: nat, j: nat, hash: Hash)
    requires i < |ops| && Seals(d, authority, ops, i, hash)
    requires i < j <= |ops| && forall k :: j <= k < |ops| ==> !Seals(d, authority, ops, k, hash)
    ensures exists last: nat :: i <= last && LastSealed(d, authority, ops, last, hash)
    decreases j
  {
    if Seals(d, authority, ops, j - 1, hash) {
      assert LastSealed(d, authority, ops, j - 1, hash);
    } else {
      LastSealedExists(d, authority, ops, i, j - 1, hash);
    }
  }

  /** Step `i` is the entitled apply this revision came from: the identical body, under this event. */
  ghost predicate RecordedBy(d: Deciders, authority: Authority, ops: seq<Op>, i: nat, e: Revision) {
    && i < |ops| && Seals(d, authority, ops, i, e.contentHash)
    && e.event == EventOf(d, authority, ops, i)
  }

  /** Entry `k` of a history is a place of the log, showing the envelope now stored for its hash. */
  lemma {:induction false} HistoryEntry(
    store: map<Hash, Envelope>, applied: seq<Hash>, events: seq<EventId>, key: ResourceKey, k: nat) returns (n: nat)
    requires |applied| == |events| && k < |History(store, applied, events, key)|
    ensures n < |applied| && applied[n] in store
    ensures History(store, applied, events, key)[k] == Revision(events[n], store[applied[n]].signer, applied[n])
    decreases |applied|
  {
    var last := |applied| - 1;
    if k < |History(store, applied[..last], events[..last], key)| {
      n := HistoryEntry(store, applied[..last], events[..last], key, k);
    } else {
      n := last;
    }
  }

  lemma SealsOfPrefix(d: Deciders, authority: Authority, ops: seq<Op>, m: nat, i: nat, e: Revision)
    requires i < m <= |ops|
    ensures RecordedBy(d, authority, ops[..m], i, e) <==> RecordedBy(d, authority, ops, i, e)
  {
    assert ops[..m][..i] == ops[..i];
  }

  /** Every place of the log was filled by one admitted apply. */
  lemma {:induction false} PlaceHasStep(d: Deciders, authority: Authority, ops: seq<Op>, n: nat, signer: NodeId) returns (i: nat)
    requires |Run(d, authority, ops).applied| == |Run(d, authority, ops).appliedEvents| && n < |Run(d, authority, ops).applied|
    ensures var s := Run(d, authority, ops);
            RecordedBy(d, authority, ops, i, Revision(s.appliedEvents[n], signer, s.applied[n]))
  {
    var m := |ops| - 1;
    var before := Run(d, authority, ops[..m]);
    Reachable(d, authority, ops[..m]);
    var s := Run(d, authority, ops);
    if n < |before.applied| {
      i := PlaceHasStep(d, authority, ops[..m], n, signer);
      SealsOfPrefix(d, authority, ops, m, i, Revision(s.appliedEvents[n], signer, s.applied[n]));
    } else {
      i := m;
      AdmittedIff(d, authority, ops, m);
      EventsAreNumbered(d, authority, ops[..m], ops[m].actor);
    }
  }

  /** Every revision of every run was recorded by one apply of a valid body, authorized when it was made, whose actor
      authored its event. */
  lemma EveryRevisionRecorded(d: Deciders, authority: Authority, ops: seq<Op>, key: ResourceKey, k: nat) returns (i: nat)
    requires |Run(d, authority, ops).applied| == |Run(d, authority, ops).appliedEvents|
    requires k < |History(Run(d, authority, ops).store, Run(d, authority, ops).applied, Run(d, authority, ops).appliedEvents, key)|
    ensures var s := Run(d, authority, ops);
            var e := History(s.store, s.applied, s.appliedEvents, key)[k];
            RecordedBy(d, authority, ops, i, e) && e.event.author == ops[i].actor
  {
    var s := Run(d, authority, ops);
    var n := HistoryEntry(s.store, s.applied, s.appliedEvents, key, k);
    i := PlaceHasStep(d, authority, ops, n, s.store[s.applied[n]].signer);
  }

  lemma LastSealedUnique(d: Deciders, authority: Authority, ops: seq<Op>, i: nat, j: nat, hash: Hash)
    requires LastSealed(d, authority, ops, i, hash) && LastSealed(d, authority, ops, j, hash)
    ensures i == j
  {
  }

  /** The signer a revision shows is the actor of the last admitted apply of its body, so it is the one who recorded
      the revision exactly when that last apply was by the same actor. */
  lemma SignerKeptIff(d: Deciders, authority: Authority, ops: seq<Op>, key: ResourceKey, k: nat, i: nat)
    requires |Run(d, authority, ops).applied| == |Run(d, authority, ops).appliedEvents|
    requires k < |History(Run(d, authority, ops).store, Run(d, authority, ops).applied, Run(d, authority, ops).appliedEvents, key)|
    requires var s := Run(d, authority, ops);
             RecordedBy(d, authority, ops, i, History(s.store, s.applied, s.appliedEvents, key)[k])
    ensures var s := Run(d, authority, ops);
            var e := History(s.store, s.applied, s.appliedEvents, key)[k];
            e.signer == ops[i].actor <==>
            exists last: nat :: i <= last && LastSealed(d, authority, ops, last, e.contentHash) && ops[last].actor == ops[i].actor
  {
    var s := Run(d, authority, ops);
    var n := HistoryEntry(s.store, s.applied, s.appliedEvents, key, k);
    var hash := s.applied[n];
    LastSealedExists(d, authority, ops, i, |ops|, hash);
    var last: nat :| i <= last && LastSealed(d, authority, ops, last, hash);
    EnvelopeIsLastSealed(d, authority, ops, last, hash);
    forall other: nat | LastSealed(d, authority, ops, other, hash)
      ensures other == last
    {
      LastSealedUnique(d, authority, ops, last, other, hash);
    }
  }

  /** Two actors apply the same body in turn: the first revision, recorded by the first, shows the second as signer. */
  lemma AnotherSignerShown(d: Deciders, authority: Authority, body: Crd, capability: Capability, first: NodeId, second: NodeId)
    requires d.validate(body).None? && first != second
    requires d.authorized(authority, first, capability) && d.authorized(authority, second, capability)
    ensures var s := Run(d, authority, [Apply(first, capability, body, {}, {}), Apply(second, capability, body, {}, {})]);
            && |s.applied| == |s.appliedEvents|
            && History(s.store, s.applied, s.appliedEvents, body.key) ==
               [Revision(EventId(first, 0), second, d.hash(body)), Revision(EventId(second, 0), second, d.hash(body))]
  {
    var ops := [Apply(first, capability, body, {}, {}), Apply(second, capability, body, {}, {})];
    assert ops[..1] == [ops[0]] && ops[..1][..0] == [];
    var hash := d.hash(body);
    var none := State(authority, map[], map[], [], []);
    assert Run(d, authority, ops[..1]) == Recorded(d, none, ops[0]) by {
      assert Run(d, authority, ops[..1][..0]) == none && ops[..1][0] == ops[0];
      assert Admitted(d, none, ops[0]);
    }
    var one := Recorded(d, none, ops[0]);
    assert Admitted(d, one, ops[1]);
    var two := Run(d, authority, ops);
    assert two.applied == [hash, hash] && two.appliedEvents == [EventId(first, 0), EventId(second, 0)];
    assert two.store == map[hash := Envelope(body, second, {}, {})];
    HistoryOfTwo(two.store, hash, EventId(first, 0), EventId(second, 0), body.key);
  }

  lemma HistoryOfTwo(store: map<Hash, Envelope>, hash: Hash, a: EventId, b: EventId, key: ResourceKey)
    requires Names(store, hash, key)
    ensures History(store, [hash, hash], [a, b], key) ==
            [Revision(a, store[hash].signer, hash), Revision(b, store[hash].signer, hash)]
  {
    assert [hash, hash][..1] == [hash] && [a, b][..1] == [a] && [hash][..0] == [] && [a][..0] == [];
    assert History(store, [hash], [a], key) == [Revision(a, store[hash].signer, hash)];
  }

  /** The entitled applies of one resource, as the run performed them. */
  ghost function RunRefs(d: Deciders, authority: Authority, ops: seq<Op>, key: ResourceKey): seq<(EventId, Hash)> {
    if ops == [] then []
    else
      var n := |ops| - 1;
      var before := RunRefs(d, authority, ops[..n], key);
      if Entitled(d, authority, ops, n) && ops[n].body.key == key
      then before + [(EventOf(d, authority, ops, n), d.hash(ops[n].body))] else before
  }

  ghost function RefsOf(s: State, key: ResourceKey): seq<(EventId, Hash)>
    requires |s.applied| == |s.appliedEvents|
  {
    Refs(History(s.store, s.applied, s.appliedEvents, key))
  }

  lemma RefsStep(d: Deciders, s: State, op: Op, key: ResourceKey)
    requires CollisionFree(d) && Consistent(d, s)
    ensures var t := Step(d, s, op);
            && |t.applied| == |t.appliedEvents|
            && RefsOf(t, key) == if Admitted(d, s, op) && op.body.key == key
                                 then RefsOf(s, key) + [(NextEvent(s, op.actor), d.hash(op.body))] else RefsOf(s, key)
  {
    if Admitted(d, s, op) {
      ApplyAddsOneRevision(d, s, op, key);
    }
  }

  lemma {:induction false} RefsAreTheRun(d: Deciders, authority: Authority, ops: seq<Op>, key: ResourceKey)
    requires CollisionFree(d)
    ensures var s := Run(d, authority, ops);
            |s.applied| == |s.appliedEvents| && RefsOf(s, key) == RunRefs(d, authority, ops, key)
  {
    if ops != [] {
      var n := |ops| - 1;
      RefsAreTheRun(d, authority, ops[..n], key);
      Reachable(d, authority, ops[..n]);
      RefsStep(d, Run(d, authority, ops[..n]), ops[n], key);
      AdmittedIff(d, authority, ops, n);
      if ops[n].Apply? {
        EventsAreNumbered(d, authority, ops[..n], ops[n].actor);
      }
    }
  }

  /** The history lists exactly those, in order, under pairwise different events. */
  lemma HistoryIsTheRun(d: Deciders, authority: Authority, ops: seq<Op>, key: ResourceKey)
    requires CollisionFree(d)
    ensures var s := Run(d, authority, ops);
            && |s.applied| == |s.appliedEvents|
            && Refs(History(s.store, s.applied, s.appliedEvents, key)) == RunRefs(d, authority, ops, key)
            && forall i, j :: 0 <= i < j < |s.appliedEvents| ==> s.appliedEvents[i] != s.appliedEvents[j]
  {
    Reachable(d, authority, ops);
    RefsAreTheRun(d, authority, ops, key);
  }

  // ---- the object that is updated in place ----

  class Plane {
    const deciders: Deciders
    var authority: Authority
    var heights: map<NodeId, nat>
    var store: map<Hash, Envelope>
    var applied: seq<Hash>
    var appliedEvents: seq<EventId>

    ghost function Abstract(): State
      reads this
    {
      State(authority, heights, store, applied, appliedEvents)
    }

    /** The two parallel vectors never drift apart. */
    ghost predicate Valid()
      reads this
    {
      |applied| == |appliedEvents|
    }

    constructor (deciders: Deciders, authority: Authority)
      ensures Valid() && this.deciders == deciders && Abstract() == Run(deciders, authority, [])
    {
      this.deciders, this.authority := deciders, authority;
      heights, store, applied, appliedEvents := map[], map[], [], [];
    }

    method ReplaceAuthority(authority: Authority)
      requires Valid()
      modifies this
      ensures Valid() && Abstract() == Step(deciders, old(Abstract()), SetAuthority(authority))
    {
      this.authority := authority;
    }

    /** On refusal nothing changes; on success the reply names the event and the hash recorded. */
    method ApplyManifest(actor: NodeId, capability: Capability, body: Crd, parents: set<Hash>, scope: set<Capability>)
      returns (r: Result<Applied, ApplyError>)
      requires Valid()
      modifies this
      ensures Valid() && Abstract() == Step(deciders, old(Abstract()), Apply(actor, capability, body, parents, scope))
      ensures var preview := Preview(deciders, old(Abstract()), actor, capability, body);
              r == if preview.Ok? then Ok(Applied(NextEvent(old(Abstract()), actor), preview.value)) else Err(preview.error)
    {
      var reason := deciders.validate(body);
      if reason.Some? { return Err(Schema(reason.value)); }
      if !deciders.authorized(authority, actor, capability) { return Err(Unauthorized(actor, capability)); }
      var contentHash := deciders.hash(body);
      var event := EventId(actor, if actor in heights then heights[actor] else 0);
      heights := heights[actor := event.seqNo + 1];
      store := store[contentHash := Envelope(body, actor, parents, scope)];
      applied := applied + [contentHash];
      appliedEvents := appliedEvents + [event];
      return Ok(Applied(event, contentHash));
    }

    method MaterializeView() returns (view: map<ResourceKey, Envelope>)
      ensures view == View(store, applied)
    {
      view := map[];
      for i := 0 to |applied|
        invariant view == View(store, applied[..i])
      {
        assert applied[..i + 1][..i] == applied[..i];
        if applied[i] in store {
          view := view[store[applied[i]].body.key := store[applied[i]]];
        }
      }
      assert applied[..|applied|] == applied;
    }

    method LastEvent(key: ResourceKey) returns (r: Option<EventId>)
      requires Valid()
      ensures r == EventCid(store, applied, appliedEvents, key)
    {
      var i := |applied|;
      assert applied[..i] == applied && appliedEvents[..i] == appliedEvents;
      while i > 0
        invariant 0 <= i <= |applied|
        invariant EventCid(store, applied[..i], appliedEvents[..i], key) == EventCid(store, applied, appliedEvents, key)
      {
        i := i - 1;
        assert applied[..i + 1][..i] == applied[..i] && appliedEvents[..i + 1][..i] == appliedEvents[..i];
        if applied[i] in store && store[applied[i]].body.key == key {
          return Some(appliedEvents[i]);
        }
      }
      return None;
    }

    method Revisions(key: ResourceKey) returns (out: seq<Revision>)
      requires Valid()
      ensures out == History(store, applied, appliedEvents, key)
    {
      out := [];
      for i := 0 to |applied|
        invariant out == History(store, applied[..i], appliedEvents[..i], key)
      {
        assert applied[..i + 1][..i] == applied[..i] && appliedEvents[..i + 1][..i] == appliedEvents[..i];
        if applied[i] !in store { continue; }
        if store[applied[i]].body.key != key { continue; }
        out := out + [Revision(appliedEvents[i], store[applied[i]].signer, applied[i])];
      }
      assert applied[..|applied|] == applied && appliedEvents[..|applied|] == appliedEvents;
    }
  }
}
