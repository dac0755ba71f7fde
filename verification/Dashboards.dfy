/** Dashboards as an event log: text-encoded mutations in a content-addressed set, replayed to the
    one with the highest sequence number. Saved queries share the same text form. */
module Dashboards {
  import opened Wrappers
  import opened Bytes
  import opened Lines
  import opened Replay

  type OpId = seq<byte>

  datatype Kind = Create | Update | Delete

  function Tag(k: Kind): string {
    match k case Create => "create" case Update => "update" case Delete => "delete"
  }

  function ParseTag(s: string): Option<Kind> {
    if s == "create" then Some(Create) else if s == "update" then Some(Update)
    else if s == "delete" then Some(Delete) else None
  }

  /** An id is parsed from non-empty hex of even length. */
  function IdFromHex(s: string): Option<OpId> {
    if s == [] then None else HexDecode(s)
  }

  datatype Event = Event(seqNo: nat, id: OpId, kind: Kind, view: Triple)

  function EncodeEvent(seqNo: nat, id: OpId, kind: Kind, t: Triple): string {
    Decimal(seqNo) + ("\n" + (HexEncode(id) + ("\n" + (Tag(kind) + ("\n" + JoinTriple(t))))))
  }

  /** How the replay reads one payload; anything malformed is skipped. */
  function ParseEvent(text: string): Option<Event> {
    ParsePieces(SplitN(text, 6))
  }

  function ParsePieces(pieces: seq<string>): Option<Event>
    requires |pieces| > 0
  {
    var seqNo := ParseU64(pieces[0]);
    if seqNo.None? || |pieces| < 2 then None
    else
      var id := IdFromHex(pieces[1]);
      if id.None? || |pieces| < 3 then None
      else
        var kind := ParseTag(pieces[2]);
        if kind.None? then None
        else Some(Event(seqNo.value, id.value, kind.value,
                        Triple(PieceOr(pieces, 3), PieceOr(pieces, 4), PieceOr(pieces, 5))))
  }

  // ---- one event, written and read ----

  lemma {:induction false} HexIsOneLine(bs: seq<byte>)
    ensures OneLine(HexEncode(bs))
  {
    if bs != [] { HexIsOneLine(bs[1..]); }
  }

  lemma TagRoundTrip(k: Kind)
    ensures ParseTag(Tag(k)) == Some(k) && OneLine(Tag(k))
  {
  }

  lemma Prepended(a: string, b: string, c: string, rest: seq<string>)
    ensures [a] + ([b] + ([c] + rest)) == [a, b, c] + rest
  {
  }

  lemma TwoFields(b: string, c: string, rest: string, n: nat)
    requires OneLine(b) && OneLine(c) && n > 2
    ensures SplitN(b + ("\n" + (c + ("\n" + rest))), n) == [b] + ([c] + SplitN(rest, n - 2))
  {
    SplitField(b, c + ("\n" + rest), n);
    SplitField(c, rest, n - 1);
  }

  /** Three one-line fields in front of a text are cut off as they are. */
  lemma ThreeFields(a: string, b: string, c: string, rest: string, n: nat)
    requires OneLine(a) && OneLine(b) && OneLine(c) && n > 3
    ensures SplitN(a + ("\n" + (b + ("\n" + (c + ("\n" + rest))))), n) == [a, b, c] + SplitN(rest, n - 3)
  {
    SplitField(a, b + ("\n" + (c + ("\n" + rest))), n);
    TwoFields(b, c, rest, n - 1);
    Prepended(a, b, c, SplitN(rest, n - 3));
  }

  lemma FieldsAreOneLine(seqNo: nat, id: OpId, kind: Kind)
    requires seqNo < TWO_TO_THE_64
    ensures OneLine(Decimal(seqNo)) && OneLine(HexEncode(id)) && OneLine(Tag(kind))
  {
    DecimalRoundTrip(seqNo);
    HexIsOneLine(id);
    TagRoundTrip(kind);
  }

  lemma EventPieces(seqNo: nat, id: OpId, kind: Kind, t: Triple, n: nat)
    requires seqNo < TWO_TO_THE_64 && n == 6
    ensures SplitN(EncodeEvent(seqNo, id, kind, t), n) ==
            [Decimal(seqNo), HexEncode(id), Tag(kind)] + SplitN(JoinTriple(t), n - 3)
  {
    FieldsAreOneLine(seqNo, id, kind);
    ThreeFields(Decimal(seqNo), HexEncode(id), Tag(kind), JoinTriple(t), n);
  }

  lemma ParsePiecesOf(a: string, b: string, c: string, more: seq<string>, seqNo: nat, kind: Kind)
    requires ParseU64(a) == Some(seqNo) && ParseTag(c) == Some(kind)
    ensures ParsePieces([a, b, c] + more) ==
            if IdFromHex(b).None? then None
            else Some(Event(seqNo, IdFromHex(b).value, kind, Triple(PieceOr(more, 0), PieceOr(more, 1), PieceOr(more, 2))))
  {
    var pieces := [a, b, c] + more;
    assert PieceOr(pieces, 3) == PieceOr(more, 0) && PieceOr(pieces, 4) == PieceOr(more, 1);
    assert PieceOr(pieces, 5) == PieceOr(more, 2);
  }

  lemma IdRoundTrip(id: OpId)
    ensures IdFromHex(HexEncode(id)) == if id == [] then None else Some(id)
  {
    HexRoundTrip(id);
  }

  /** A written event is read back with its sequence number, id and kind, and with its free text as
      three joined fields read back; an event under an empty id is never seen. */
  lemma EventRoundTrip(seqNo: nat, id: OpId, kind: Kind, t: Triple)
    requires seqNo < TWO_TO_THE_64
    ensures ParseEvent(EncodeEvent(seqNo, id, kind, t)) ==
            if id == [] then None else Some(Event(seqNo, id, kind, ReadTriple(JoinTriple(t))))
  {
    EventPieces(seqNo, id, kind, t, 6);
    DecimalRoundTrip(seqNo);
    TagRoundTrip(kind);
    IdRoundTrip(id);
    ParsePiecesOf(Decimal(seqNo), HexEncode(id), Tag(kind), SplitN(JoinTriple(t), 3), seqNo, kind);
  }

  // ---- the log and its replay ----

  datatype Op =
    | CreateDashboard(view: Triple)
    | UpdateDashboard(id: OpId, view: Triple)
    | DeleteDashboard(id: OpId, signer: string)

  type Address = string -> OpId

  /** A created dashboard is named by the content address of its first event's text. */
  function IdOf(address: Address, op: Op): OpId {
    match op
    case CreateDashboard(view) => address("probe\n" + JoinTriple(view))
    case UpdateDashboard(id, _) => id
    case DeleteDashboard(id, _) => id
  }

  function KindOf(op: Op): Kind {
    match op case CreateDashboard(_) => Create case UpdateDashboard(_, _) => Update case DeleteDashboard(_, _) => Delete
  }

  function TextOf(op: Op): Triple {
    match op
    case CreateDashboard(view) => view
    case UpdateDashboard(_, view) => view
    case DeleteDashboard(_, signer) => Triple(signer, "", "")
  }

  datatype State = State(log: set<string>, nextSeq: uint64)

  /** Appending to the log is inserting into a set: the log is content-addressed. */
  function Step(address: Address, s: State, op: Op): State {
    State(s.log + {EncodeEvent(s.nextSeq, IdOf(address, op), KindOf(op), TextOf(op))},
          if s.nextSeq + 1 < TWO_TO_THE_64 then s.nextSeq + 1 else 0)
  }

  function Run(address: Address, ops: seq<Op>): State {
    if ops == [] then State({}, 0) else Step(address, Run(address, ops[..|ops| - 1]), ops[|ops| - 1])
  }

  /** What the replay takes from a payload: a deletion removes, anything else sets. */
  function ReadEntry(text: string): Option<Entry<OpId, Triple>> {
    match ParseEvent(text)
    case None => None
    case Some(e) => Some(Entry(e.seqNo, e.id, if e.kind.Delete? then None else Some(e.view)))
  }

  function GetDashboard(order: seq<string>, id: OpId): Option<Triple> {
    Resolve(Latest(ReadEntry, order, id))
  }

  /** The source's replay loop over an enumeration of the log. */
  method ReplayDashboard(order: seq<string>, id: OpId) returns (r: Option<Triple>)
    ensures r == GetDashboard(order, id)
  {
    var latest: Option<Event> := None;
    for i := 0 to |order|
      invariant AsEntry(latest) == Latest(ReadEntry, order[..i], id)
    {
      assert order[..i + 1][..i] == order[..i];
      var e := ParseEvent(order[i]);
      if e.None? || e.value.id != id { continue; }
      if latest.None? || e.value.seqNo > latest.value.seqNo {
        latest := e;
      }
    }
    assert order[..|order|] == order;
    return if latest.None? || latest.value.kind.Delete? then None else Some(latest.value.view);
  }

  function AsEntry(e: Option<Event>): Option<Entry<OpId, Triple>> {
    if e.None? then None
    else Some(Entry(e.value.seqNo, e.value.id, if e.value.kind.Delete? then None else Some(e.value.view)))
  }

  // ---- the log refines a plain map ----

  function Writer(address: Address): (nat, Op) -> string {
    (n: nat, op: Op) => EncodeEvent(n, IdOf(address, op), KindOf(op), TextOf(op))
  }

  function Namer(address: Address): Op -> OpId {
    (op: Op) => IdOf(address, op)
  }

  /** Create and update set the entry, as the three joined fields read back; delete removes it. */
  function ValueOf(op: Op): Option<Triple> {
    if op.DeleteDashboard? then None else Some(ReadTriple(JoinTriple(TextOf(op))))
  }

  predicate NonEmpty(id: OpId) {
    id != []
  }

  lemma CodecFaithful(address: Address)
    ensures Faithful(Writer(address), ReadEntry, Namer(address), ValueOf, NonEmpty, TWO_TO_THE_64)
  {
    forall i: nat, op: Op | i < TWO_TO_THE_64
      ensures ReadEntry(Writer(address)(i, op)) ==
              if NonEmpty(Namer(address)(op)) then Some(Entry(i, Namer(address)(op), ValueOf(op))) else None
    {
      EventRoundTrip(i, IdOf(address, op), KindOf(op), TextOf(op));
    }
  }

  lemma {:induction false} LogIsTheRun(address: Address, ops: seq<Op>)
    requires |ops| <= TWO_TO_THE_64
    ensures Run(address, ops).nextSeq == if |ops| < TWO_TO_THE_64 then |ops| else 0
    ensures Run(address, ops).log == Log(Writer(address), ops)
  {
    if ops != [] {
      LogIsTheRun(address, ops[..|ops| - 1]);
    }
  }

  /** After every run, in whatever order the log is enumerated, replaying it for an id gives the
      entry of the plain map; an empty id resolves to nothing. */
  lemma RefinesMap(address: Address, ops: seq<Op>, order: seq<string>, id: OpId)
    requires |ops| <= TWO_TO_THE_64 && Enumerates(order, Run(address, ops).log)
    ensures GetDashboard(order, id) ==
            if id == [] then None else Lookup(Meaning(Namer(address), ValueOf, ops), id)
  {
    LogIsTheRun(address, ops);
    CodecFaithful(address);
    ReplayRefinesMap(Writer(address), ReadEntry, Namer(address), ValueOf, NonEmpty, TWO_TO_THE_64, ops, order, id);
  }

  function NumberOf(text: string): Option<nat> {
    var n := ParseU64(SplitN(text, 6)[0]);
    if n.Some? then Some(n.value) else None
  }

  /** Sequence numbers make every payload new, so the content-addressed log drops none. */
  lemma NothingDeduplicated(address: Address, ops: seq<Op>)
    requires |ops| <= TWO_TO_THE_64
    ensures |Run(address, ops).log| == |ops|
  {
    LogIsTheRun(address, ops);
    forall i: nat | i < |ops|
      ensures NumberOf(Writer(address)(i, ops[i])) == Some(i)
    {
      EventPieces(i, IdOf(address, ops[i]), KindOf(ops[i]), TextOf(ops[i]), 6);
      DecimalRoundTrip(i);
    }
    LogSize(Writer(address), NumberOf, ops);
  }

  /** A dashboard reads as the last operation about it left it, whatever was done to others since. */
  lemma ReadsLastWrite(address: Address, ops: seq<Op>, order: seq<string>, k: nat)
    requires |ops| <= TWO_TO_THE_64 && Enumerates(order, Run(address, ops).log)
    requires IsLastAbout(Namer(address), ops, k) && IdOf(address, ops[k]) != []
    ensures GetDashboard(order, IdOf(address, ops[k])) == ValueOf(ops[k])
  {
    RefinesMap(address, ops, order, IdOf(address, ops[k]));
    MeaningAt(Namer(address), ValueOf, ops, k);
  }

  /** A dashboard no operation is about reads as nothing. */
  lemma UnnamedReadsNothing(address: Address, ops: seq<Op>, order: seq<string>, id: OpId)
    requires |ops| <= TWO_TO_THE_64 && Enumerates(order, Run(address, ops).log)
    requires forall j :: 0 <= j < |ops| ==> Namer(address)(ops[j]) != id
    ensures GetDashboard(order, id) == None
  {
    RefinesMap(address, ops, order, id);
    MeaningOfUnnamed(Namer(address), ValueOf, ops, id);
  }

  /** What was last written to a dashboard is what is read, exactly when signer and name are one line each. */
  lemma ReadsWhatWasWrittenIff(address: Address, ops: seq<Op>, order: seq<string>, k: nat)
    requires |ops| <= TWO_TO_THE_64 && Enumerates(order, Run(address, ops).log)
    requires IsLastAbout(Namer(address), ops, k) && IdOf(address, ops[k]) != [] && !ops[k].DeleteDashboard?
    ensures GetDashboard(order, IdOf(address, ops[k])) == Some(TextOf(ops[k])) <==>
            OneLine(TextOf(ops[k]).signer) && OneLine(TextOf(ops[k]).name)
  {
    ReadsLastWrite(address, ops, order, k);
    TripleRoundTripIff(TextOf(ops[k]));
  }

  // ---- saved queries ----

  /** The query stored under an address: the first payload of the log with that address. */
  function LoadQuery(address: Address, order: seq<string>, id: OpId): Option<Triple> {
    if order == [] then None
    else if address(order[0]) == id then LinesOf(order[0])
    else LoadQuery(address, order[1..], id)
  }

  /** Signer and name are required; a missing spec reads as empty. */
  function LinesOf(text: string): Option<Triple> {
    var pieces := SplitN(text, 3);
    if |pieces| < 2 then None else Some(Triple(pieces[0], pieces[1], PieceOr(pieces, 2)))
  }

  lemma JoinedHasThreeLines(t: Triple)
    ensures |SplitN(JoinTriple(t), 3)| >= 2
  {
    FirstBreakBound(JoinTriple(t), |t.signer|);
  }

  /** A saved query loads under its address from every enumeration of every log holding it, and
      loads unchanged exactly when its signer and name are one line each. */
  lemma {:induction false} SavedQueryLoads(address: Address, order: seq<string>, q: Triple)
    requires forall a, b :: address(a) == address(b) ==> a == b
    requires exists k :: 0 <= k < |order| && order[k] == JoinTriple(q)
    ensures LoadQuery(address, order, address(JoinTriple(q))) == Some(ReadTriple(JoinTriple(q)))
    ensures LoadQuery(address, order, address(JoinTriple(q))) == Some(q) <==> OneLine(q.signer) && OneLine(q.name)
    decreases |order|
  {
    TripleRoundTripIff(q);
    JoinedHasThreeLines(q);
    if order[0] != JoinTriple(q) {
      var k :| 0 <= k < |order| && order[k] == JoinTriple(q);
      assert order[1..][k - 1] == JoinTriple(q);
      SavedQueryLoads(address, order[1..], q);
    }
  }

  // ---- the object that is updated in place ----

  class Builders {
    const address: Address
    var dashboards: set<string>
    var nextDashboardSeq: uint64

    ghost function Abstract(): State
      reads this
    {
      State(dashboards, nextDashboardSeq)
    }

    constructor (address: Address)
      ensures this.address == address && Abstract() == Run(address, [])
    {
      this.address, dashboards, nextDashboardSeq := address, {}, 0;
    }

    method AppendEvent(id: OpId, kind: Kind, t: Triple)
      modifies this
      ensures dashboards == old(dashboards) + {EncodeEvent(old(nextDashboardSeq), id, kind, t)}
      ensures nextDashboardSeq == if old(nextDashboardSeq) + 1 < TWO_TO_THE_64 then old(nextDashboardSeq) + 1 else 0
    {
      var seqNo := nextDashboardSeq;
      nextDashboardSeq := if seqNo + 1 < TWO_TO_THE_64 then seqNo + 1 else 0;
      dashboards := dashboards + {EncodeEvent(seqNo, id, kind, t)};
    }

    method CreateNew(signer: string, name: string, content: string) returns (id: OpId)
      modifies this
      ensures Abstract() == Step(address, old(Abstract()), CreateDashboard(Triple(signer, name, content)))
      ensures id == address("probe\n" + (signer + ("\n" + (name + ("\n" + content)))))
    {
      id := address("probe\n" + JoinTriple(Triple(signer, name, content)));
      AppendEvent(id, Create, Triple(signer, name, content));
    }

    method UpdateExisting(id: OpId, signer: string, name: string, content: string)
      modifies this
      ensures Abstract() == Step(address, old(Abstract()), UpdateDashboard(id, Triple(signer, name, content)))
    {
      AppendEvent(id, Update, Triple(signer, name, content));
    }

    method DeleteExisting(id: OpId, signer: string)
      modifies this
      ensures Abstract() == Step(address, old(Abstract()), DeleteDashboard(id, signer))
    {
      AppendEvent(id, Delete, Triple(signer, "", ""));
    }
  }
}
