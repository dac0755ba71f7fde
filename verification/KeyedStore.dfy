/** The keyed store: fields folded by last writer over a content-addressed log, and its reclaiming compaction. */
module KeyedStore {
  import opened Wrappers
  import opened Bytes
  import Election

  /** The bytes of a name: a length always fits 64 bits. */
  type Name = b: seq<byte> | |b| < TWO_TO_THE_64

  type OpId = seq<byte>

  /** A hybrid logical clock stamp. */
  datatype Hlc = Hlc(physical: uint64, logical: uint64, author: seq<byte>)

  datatype Value = Scalar(bytes: seq<byte>) | Nested(fields: map<string, Value>)

  datatype Kind = Put(value: Value) | Tomb

  datatype Slot = Slot(collection: Name, doc: Name, field: Name)

  /** An operation as the log holds it: decoded, or a payload that is no keyed operation. */
  datatype Payload = Keyed(slot: Slot, hlc: Hlc, kind: Kind) | Other(bytes: seq<byte>)

  datatype Op = Op(id: OpId, payload: Payload)

  // ---- orders ----

  predicate LexLess(a: seq<byte>, b: seq<byte>) {
    b != [] && (a == [] || a[0] < b[0] || (a[0] == b[0] && LexLess(a[1..], b[1..])))
  }

  predicate HlcLess(a: Hlc, b: Hlc) {
    || a.physical < b.physical
    || (a.physical == b.physical && a.logical < b.logical)
    || (a.physical == b.physical && a.logical == b.logical && LexLess(a.author, b.author))
  }

  lemma {:induction false} LexIrreflexive(a: seq<byte>)
    ensures !LexLess(a, a)
  {
    if a != [] {
      LexIrreflexive(a[1..]);
    }
  }

  lemma {:induction false} LexTransitive(a: seq<byte>, b: seq<byte>, c: seq<byte>)
    requires LexLess(a, b) && LexLess(b, c)
    ensures LexLess(a, c)
  {
    if a != [] && a[0] == b[0] && b[0] == c[0] {
      LexTransitive(a[1..], b[1..], c[1..]);
    }
  }

  lemma {:induction false} LexTotal(a: seq<byte>, b: seq<byte>)
    ensures LexLess(a, b) || LexLess(b, a) || a == b
  {
    if a != [] && b != [] && a[0] == b[0] {
      LexTotal(a[1..], b[1..]);
      assert a == [a[0]] + a[1..] && b == [b[0]] + b[1..];
    }
  }

  lemma LexOrder()
    ensures Election.StrictTotal(LexLess)
  {
    forall a { LexIrreflexive(a); }
    forall a, b, c | LexLess(a, b) && LexLess(b, c) ensures LexLess(a, c) { LexTransitive(a, b, c); }
    forall a, b ensures LexLess(a, b) || LexLess(b, a) || a == b { LexTotal(a, b); }
  }

  lemma HlcOrder()
    ensures Election.StrictTotal(HlcLess)
  {
    LexOrder();
  }

  // ---- the bytes the compaction compares ----

  function Prefixed(name: Name): seq<byte> {
    ToBe(|name|, 8) + name
  }

  function GroupKey(slot: Slot): seq<byte> {
    Prefixed(slot.collection) + (Prefixed(slot.doc) + Prefixed(slot.field))
  }

  function Priority(hlc: Hlc): seq<byte> {
    ToBe(hlc.physical, 8) + (ToBe(hlc.logical, 8) + hlc.author)
  }

  lemma PrefixedSplits(a: Name, b: Name, x: seq<byte>, y: seq<byte>)
    requires Prefixed(a) + x == Prefixed(b) + y
    ensures a == b && x == y
  {
    var whole := Prefixed(a) + x;
    assert whole[..8] == ToBe(|a|, 8) && whole[..8] == ToBe(|b|, 8);
    Be64Value(|a|);
    Be64Value(|b|);
    assert whole[8..8 + |a|] == a && whole[8..8 + |b|] == b;
    assert whole[8 + |a|..] == x && whole[8 + |b|..] == y;
  }

  /** The length prefixes keep the three names apart. */
  lemma GroupKeysEqualIff(s: Slot, t: Slot)
    ensures GroupKey(s) == GroupKey(t) <==> s == t
  {
    if GroupKey(s) == GroupKey(t) {
      PrefixedSplits(s.collection, t.collection, Prefixed(s.doc) + Prefixed(s.field), Prefixed(t.doc) + Prefixed(t.field));
      PrefixedSplits(s.doc, t.doc, Prefixed(s.field), Prefixed(t.field));
      assert Prefixed(s.field) + [] == Prefixed(t.field) + [];
      PrefixedSplits(s.field, t.field, [], []);
    }
  }

  lemma {:induction false} LexConcat(a: seq<byte>, b: seq<byte>, x: seq<byte>, y: seq<byte>)
    requires |a| == |b|
    ensures LexLess(a + x, b + y) <==> LexLess(a, b) || (a == b && LexLess(x, y))
  {
    if a == [] {
      assert a + x == x && b + y == y;
    } else {
      assert (a + x)[1..] == a[1..] + x && (b + y)[1..] == b[1..] + y;
      LexConcat(a[1..], b[1..], x, y);
      assert a == [a[0]] + a[1..] && b == [b[0]] + b[1..];
    }
  }

  /** Fixed-width big-endian numbers compare as bytes as they do as numbers. */
  lemma {:induction false} BeOrder(m: nat, n: nat, width: nat)
    requires m < Pow256(width) && n < Pow256(width)
    ensures LexLess(ToBe(m, width), ToBe(n, width)) <==> m < n
    ensures ToBe(m, width) == ToBe(n, width) <==> m == n
  {
    FromToBe(m, width);
    FromToBe(n, width);
    if width > 0 {
      BeOrder(m / 256, n / 256, width - 1);
      LexConcat(ToBe(m / 256, width - 1), ToBe(n / 256, width - 1), [m % 256], [n % 256]);
    }
  }

  /** Priorities compare as bytes exactly as stamps do. */
  lemma PriorityOrderIff(a: Hlc, b: Hlc)
    ensures LexLess(Priority(a), Priority(b)) <==> HlcLess(a, b)
    ensures Priority(a) == Priority(b) <==> a == b
  {
    PowersUsed();
    BeOrder(a.physical, b.physical, 8);
    BeOrder(a.logical, b.logical, 8);
    var restA, restB := ToBe(a.logical, 8) + a.author, ToBe(b.logical, 8) + b.author;
    LexConcat(ToBe(a.physical, 8), ToBe(b.physical, 8), restA, restB);
    LexConcat(ToBe(a.logical, 8), ToBe(b.logical, 8), a.author, b.author);
    if Priority(a) == Priority(b) {
      Halves(ToBe(a.physical, 8), ToBe(b.physical, 8), restA, restB);
      Halves(ToBe(a.logical, 8), ToBe(b.logical, 8), a.author, b.author);
    }
  }

  lemma Halves(a: seq<byte>, b: seq<byte>, x: seq<byte>, y: seq<byte>)
    requires |a| == |b| && a + x == b + y
    ensures a == b && x == y
  {
    assert (a + x)[..|a|] == a && (b + y)[..|a|] == b;
    assert (a + x)[|a|..] == x && (b + y)[|a|..] == y;
  }

  // ---- the two sets of rules ----

  function SlotOf(op: Op): Option<Slot> {
    if op.payload.Keyed? then Some(op.payload.slot) else None
  }

  function HlcOf(op: Op): Hlc {
    if op.payload.Keyed? then op.payload.hlc else Hlc(0, 0, [])
  }

  function KeyOf(op: Op): Option<seq<byte>> {
    if op.payload.Keyed? then Some(GroupKey(op.payload.slot)) else None
  }

  function PriorityOf(op: Op): seq<byte> {
    Priority(HlcOf(op))
  }

  function IdOf(op: Op): OpId {
    op.id
  }

  type FoldRules = Election.Rules<Op, Slot, Hlc, OpId>

  type ReclaimRules = Election.Rules<Op, seq<byte>, seq<byte>, OpId>

  /** What a read compares. */
  const FOLD: FoldRules := Election.Rules(SlotOf, HlcOf, HlcLess, IdOf, LexLess)

  /** What the compaction compares. */
  const RECLAIM: ReclaimRules := Election.Rules(KeyOf, PriorityOf, LexLess, IdOf, LexLess)

  lemma RulesOrdered()
    ensures Election.Ordered(FOLD) && Election.Ordered(RECLAIM)
  {
    LexOrder();
    HlcOrder();
  }

  /** Compacting by keys and priorities in bytes keeps what compacting by slots and stamps would. */
  lemma PolicyIsTheFoldsOrder(ops: set<Op>)
    ensures Election.Compacted(RECLAIM, ops) == Election.Compacted(FOLD, ops)
  {
    forall o, p
      ensures Election.Outranks(RECLAIM, o, p) <==> Election.Outranks(FOLD, o, p)
      ensures KeyOf(o) == KeyOf(p) <==> SlotOf(o) == SlotOf(p)
    {
      PriorityOrderIff(HlcOf(o), HlcOf(p));
      PriorityOrderIff(HlcOf(p), HlcOf(o));
      if o.payload.Keyed? && p.payload.Keyed? {
        GroupKeysEqualIff(o.payload.slot, p.payload.slot);
      }
    }
    forall o
      ensures Election.Kept(RECLAIM, ops, o) <==> Election.Kept(FOLD, ops, o)
    {
      assert RECLAIM.group(o).Some? <==> FOLD.group(o).Some?;
    }
  }

  // ---- the store's reads ----

  function FieldValue(log: seq<Op>, slot: Slot): Option<Value> {
    ValueOf(Election.Best(FOLD, log, slot))
  }

  function ValueOf(winner: Option<Op>): Option<Value> {
    if winner.Some? && winner.value.payload.Keyed? && winner.value.payload.kind.Put?
    then Some(winner.value.payload.kind.value)
    else None
  }

  /** A field reads a value exactly when some operation of the log put it there, no operation on the field is later,
      and no equally late one has a smaller id: never a value nobody wrote. */
  lemma FieldIff(log: seq<Op>, slot: Slot, v: Value)
    requires Election.Sorted(FOLD, log)
    ensures FieldValue(log, slot) == Some(v) <==>
            exists o :: Election.Elected(FOLD, Election.Elems(log), slot, o) && o.payload.kind == Put(v)
  {
    RulesOrdered();
    var best := Election.Best(FOLD, log, slot);
    Election.BestIsElected(FOLD, log, slot);
    if o :| Election.Elected(FOLD, Election.Elems(log), slot, o) && o.payload.kind == Put(v) {
      Election.BestIff(FOLD, log, slot, o);
    }
  }

  /** The first stamp is later: a later physical time, else a later logical one, else a greater author. */
  predicate LaterStamp(a: Hlc, b: Hlc) {
    if a.physical != b.physical then a.physical > b.physical
    else if a.logical != b.logical then a.logical > b.logical
    else LexLess(b.author, a.author)
  }

  /** An operation with a later stamp than every other on its field decides what the field reads. */
  lemma LatestDecides(log: seq<Op>, o: Op, slot: Slot)
    requires Election.Sorted(FOLD, log) && o in log && SlotOf(o) == Some(slot)
    requires forall p :: p in log && p != o && SlotOf(p) == Some(slot) ==> LaterStamp(HlcOf(o), HlcOf(p))
    ensures FieldValue(log, slot) == if o.payload.kind.Put? then Some(o.payload.kind.value) else None
  {
    RulesOrdered();
    var ops := Election.Elems(log);
    forall p | p in ops && SlotOf(p) == Some(slot)
      ensures Election.NotBetter(FOLD, o, p)
    {
      assert p == o || HlcLess(HlcOf(p), HlcOf(o));
    }
    assert Election.Elected(FOLD, ops, slot, o);
    Election.BestIff(FOLD, log, slot, o);
  }

  /** Replicas that hold the same operations read the same value in every field. */
  lemma ReplicasConverge(a: seq<Op>, arrivedA: seq<Op>, b: seq<Op>, arrivedB: seq<Op>, slot: Slot)
    requires Election.Sorted(FOLD, a) && Election.Sorted(FOLD, b)
    requires Election.Elems(a) + Election.Elems(arrivedA) == Election.Elems(b) + Election.Elems(arrivedB)
    requires Election.Addressed(FOLD, Election.Elems(a) + Election.Elems(arrivedA))
    ensures FieldValue(Election.Merge(FOLD, a, arrivedA), slot) == FieldValue(Election.Merge(FOLD, b, arrivedB), slot)
  {
    RulesOrdered();
    Election.Converges(FOLD, a, arrivedA, b, arrivedB);
  }

  // ---- compaction against reads ----

  ghost predicate Snapshot(log: seq<Op>, kept: seq<Op>) {
    Election.Sorted(FOLD, log) && Election.IsCompaction(RECLAIM, log, kept)
  }

  lemma SnapshotHolds(log: seq<Op>, kept: seq<Op>)
    requires Snapshot(log, kept)
    ensures Election.IsCompaction(FOLD, log, kept)
  {
    PolicyIsTheFoldsOrder(Election.Elems(log));
  }

  /** The field's winner is the same with the snapshot as with the whole history, for the tail that came after. */
  ghost predicate SameWinner(log: seq<Op>, kept: seq<Op>, tail: seq<Op>, slot: Slot) {
    Election.Best(FOLD, Election.Merge(FOLD, kept, tail), slot) == Election.Best(FOLD, Election.Merge(FOLD, log, tail), slot)
  }

  ghost predicate Joins(log: seq<Op>, tail: seq<Op>) {
    Election.Addressed(FOLD, Election.Elems(log) + Election.Elems(tail))
  }

  lemma SameWinnerWhenSole(log: seq<Op>, kept: seq<Op>, tail: seq<Op>, slot: Slot)
    requires Snapshot(log, kept) && Joins(log, tail)
    requires Election.SoleLatest(FOLD, Election.Elems(log), slot)
    ensures SameWinner(log, kept, tail, slot)
  {
    RulesOrdered();
    SnapshotHolds(log, kept);
    var ops, late := Election.Elems(log), Election.Elems(tail);
    Election.AgreesWhenSole(FOLD, ops, late, slot);
    assert Election.Addressed(FOLD, Election.Elems(kept) + late);
    Election.MergeElems(FOLD, log, tail);
    Election.MergeElems(FOLD, kept, tail);
    WinnersAgree(Election.Merge(FOLD, kept, tail), Election.Merge(FOLD, log, tail), slot);
  }

  lemma WinnersAgree(a: seq<Op>, b: seq<Op>, slot: Slot)
    requires Election.Sorted(FOLD, a) && Election.Sorted(FOLD, b)
    requires forall o :: Election.Elected(FOLD, Election.Elems(a), slot, o) <==> Election.Elected(FOLD, Election.Elems(b), slot, o)
    ensures Election.Best(FOLD, a, slot) == Election.Best(FOLD, b, slot)
  {
    RulesOrdered();
    var x, y := Election.Best(FOLD, a, slot), Election.Best(FOLD, b, slot);
    if x.Some? {
      Election.BestIff(FOLD, a, slot, x.value);
      Election.BestIff(FOLD, b, slot, x.value);
    } else if y.Some? {
      Election.BestIff(FOLD, a, slot, y.value);
      Election.BestIff(FOLD, b, slot, y.value);
    }
  }

  /** A snapshot stands in for the history it compacts, whatever tail is replayed on it, exactly when no two operations
      share the latest stamp of the field. */
  lemma SnapshotStandsInIff(log: seq<Op>, kept: seq<Op>, slot: Slot)
    requires Snapshot(log, kept)
    ensures (forall tail :: Joins(log, tail) ==> SameWinner(log, kept, tail, slot)) <==>
            Election.SoleLatest(FOLD, Election.Elems(log), slot)
  {
    RulesOrdered();
    var ops := Election.Elems(log);
    if Election.SoleLatest(FOLD, ops, slot) {
      forall tail | Joins(log, tail)
        ensures SameWinner(log, kept, tail, slot)
      {
        SameWinnerWhenSole(log, kept, tail, slot);
      }
    }
    if forall tail :: Joins(log, tail) ==> SameWinner(log, kept, tail, slot) {
      Election.SortedSize(FOLD, log);
      assert ops + Election.Elems<Op>([]) == ops;
      assert Joins(log, []) && SameWinner(log, kept, [], slot);
      var w := Election.Best(FOLD, log, slot);
      Election.BestIsElected(FOLD, log, slot);
      if w.Some? {
        SnapshotReads(log, kept, slot, w.value);
        Election.ElectedSurvivesIff(FOLD, ops, slot, w.value);
      } else {
        assert !Election.Contested(FOLD, ops, slot);
      }
    }
  }

  /** With nothing after it a snapshot reads, of the operations with the field's latest stamp, the one with the
      greatest id; the history reads the one with the least. */
  lemma SnapshotReads(log: seq<Op>, kept: seq<Op>, slot: Slot, o: Op)
    requires Snapshot(log, kept)
    ensures Election.Best(FOLD, kept, slot) == Some(o) <==> Election.Survives(FOLD, Election.Elems(log), slot, o)
    ensures Election.Best(FOLD, log, slot) == Some(o) <==> Election.Elected(FOLD, Election.Elems(log), slot, o)
  {
    RulesOrdered();
    SnapshotHolds(log, kept);
    Election.SortedSize(FOLD, log);
    Election.BestIff(FOLD, kept, slot, o);
    Election.BestIff(FOLD, log, slot, o);
    Election.ElectedAfter(FOLD, Election.Elems(log), slot, o);
  }

  /** So the value read is kept exactly when those two operations say the same. */
  lemma SnapshotValueIff(log: seq<Op>, kept: seq<Op>, slot: Slot, first: Op, last: Op)
    requires Snapshot(log, kept)
    requires Election.Elected(FOLD, Election.Elems(log), slot, first)
    requires Election.Survives(FOLD, Election.Elems(log), slot, last)
    ensures FieldValue(kept, slot) == FieldValue(log, slot) <==> first.payload.kind == last.payload.kind
  {
    SnapshotReads(log, kept, slot, first);
    SnapshotReads(log, kept, slot, last);
  }

  // ---- content addresses ----

  type Address = Payload -> OpId

  /** Every operation lies under the address of its payload, as each does from the moment it is made. */
  ghost predicate ContentAddressed(address: Address, ops: set<Op>) {
    forall o :: o in ops ==> o.id == address(o.payload)
  }

  ghost predicate CollisionFree(address: Address) {
    forall p, q :: address(p) == address(q) ==> p == q
  }

  /** Content addresses without collisions give what merging asks of ids. */
  lemma ContentJoins(address: Address, log: seq<Op>, tail: seq<Op>)
    requires CollisionFree(address)
    requires ContentAddressed(address, Election.Elems(log)) && ContentAddressed(address, Election.Elems(tail))
    ensures Joins(log, tail)
  {
  }

  /** The field reads the same with the snapshot as with the whole history, for the tail that came after. */
  ghost predicate SameValue(log: seq<Op>, kept: seq<Op>, tail: seq<Op>, slot: Slot) {
    FieldValue(Election.Merge(FOLD, kept, tail), slot) == FieldValue(Election.Merge(FOLD, log, tail), slot)
  }

  /** Operations with the same field, stamp and kind are one operation. */
  lemma SameContent(address: Address, ops: set<Op>, slot: Slot, o: Op, p: Op)
    requires ContentAddressed(address, ops) && o in ops && p in ops
    requires SlotOf(o) == Some(slot) && SlotOf(p) == Some(slot) && HlcOf(o) == HlcOf(p) && o.payload.kind == p.payload.kind
    ensures o == p
  {
    assert o.payload == p.payload;
  }

  lemma SoleWhenSameValue(address: Address, log: seq<Op>, kept: seq<Op>, slot: Slot)
    requires Snapshot(log, kept) && ContentAddressed(address, Election.Elems(log))
    requires FieldValue(kept, slot) == FieldValue(log, slot)
    ensures Election.SoleLatest(FOLD, Election.Elems(log), slot)
  {
    RulesOrdered();
    var ops := Election.Elems(log);
    Election.SortedSize(FOLD, log);
    if Election.Contested(FOLD, ops, slot) {
      var first := Election.ElectedExists(FOLD, ops, slot);
      var last := Election.SurvivorExists(FOLD, ops, slot);
      SnapshotValueIff(log, kept, slot, first, last);
      Election.ElectedIsLatest(FOLD, ops, slot, first);
      Election.ElectedIsLatest(FOLD, ops, slot, last);
      Election.LatestTie(FOLD, ops, slot, first, last);
      SameContent(address, ops, slot, first, last);
      Election.ElectedSurvivesIff(FOLD, ops, slot, first);
    }
  }

  /** A snapshot reads every field as the history it compacts does, whatever tail is replayed on it, exactly when no two
      operations share the field's latest stamp; and where the values agree with nothing replayed they always do. */
  lemma SnapshotReadsAlikeIff(address: Address, log: seq<Op>, kept: seq<Op>, slot: Slot)
    requires Snapshot(log, kept) && ContentAddressed(address, Election.Elems(log))
    ensures (forall tail :: Joins(log, tail) ==> SameValue(log, kept, tail, slot)) <==>
            Election.SoleLatest(FOLD, Election.Elems(log), slot)
    ensures FieldValue(kept, slot) == FieldValue(log, slot) <==> Election.SoleLatest(FOLD, Election.Elems(log), slot)
  {
    if Election.SoleLatest(FOLD, Election.Elems(log), slot) {
      forall tail | Joins(log, tail)
        ensures SameValue(log, kept, tail, slot)
      {
        SameWinnerWhenSole(log, kept, tail, slot);
      }
    }
    RulesOrdered();
    Election.SortedSize(FOLD, log);
    assert Election.Elems(log) + Election.Elems<Op>([]) == Election.Elems(log);
    assert Joins(log, []);
    assert SameValue(log, kept, [], slot) <==> FieldValue(kept, slot) == FieldValue(log, slot);
    if FieldValue(kept, slot) == FieldValue(log, slot) {
      SoleWhenSameValue(address, log, kept, slot);
    }
  }

  /** Two operations on a field under one stamp, whatever their addresses: the history reads the one with the smaller
      id, its snapshot the other. */
  lemma SharedStampReads(slot: Slot, hlc: Hlc, a: OpId, b: OpId, first: Kind, last: Kind, kept: seq<Op>)
    requires LexLess(a, b)
    requires Snapshot([Op(a, Keyed(slot, hlc, first)), Op(b, Keyed(slot, hlc, last))], kept)
    ensures Election.Best(FOLD, [Op(a, Keyed(slot, hlc, first)), Op(b, Keyed(slot, hlc, last))], slot) ==
            Some(Op(a, Keyed(slot, hlc, first)))
    ensures Election.Best(FOLD, kept, slot) == Some(Op(b, Keyed(slot, hlc, last)))
  {
    var x, y := Op(a, Keyed(slot, hlc, first)), Op(b, Keyed(slot, hlc, last));
    var log := [x, y];
    var ops := Election.Elems(log);
    LexIrreflexive(a);
    assert ops == {x, y};
    assert Election.Elected(FOLD, ops, slot, x) && Election.Survives(FOLD, ops, slot, y);
    SnapshotReads(log, kept, slot, x);
    SnapshotReads(log, kept, slot, y);
  }

  lemma PairIsSorted(x: Op, y: Op)
    requires LexLess(x.id, y.id)
    ensures Election.Sorted(FOLD, [x, y])
  {
  }

  /** A field put and deleted under one stamp, at any two addresses: of the history and its snapshot one reads the value
      and the other nothing. */
  lemma SharedStampLosesTheValue(address: Address, slot: Slot, hlc: Hlc, v: Value, kept: seq<Op>)
    requires address(Keyed(slot, hlc, Put(v))) != address(Keyed(slot, hlc, Tomb))
    ensures var put, tomb := Made(address, Keyed(slot, hlc, Put(v))), Made(address, Keyed(slot, hlc, Tomb));
            var log := if LexLess(put.id, tomb.id) then [put, tomb] else [tomb, put];
            && Election.Sorted(FOLD, log)
            && (Snapshot(log, kept) ==>
                  if LexLess(put.id, tomb.id) then FieldValue(log, slot) == Some(v) && FieldValue(kept, slot) == None
                  else FieldValue(log, slot) == None && FieldValue(kept, slot) == Some(v))
  {
    var put, tomb := Made(address, Keyed(slot, hlc, Put(v))), Made(address, Keyed(slot, hlc, Tomb));
    if LexLess(put.id, tomb.id) {
      PairIsSorted(put, tomb);
      if Snapshot([put, tomb], kept) {
        SharedStampReads(slot, hlc, put.id, tomb.id, Put(v), Tomb, kept);
      }
    } else {
      LexTotal(put.id, tomb.id);
      PairIsSorted(tomb, put);
      if Snapshot([tomb, put], kept) {
        SharedStampReads(slot, hlc, tomb.id, put.id, Tomb, Put(v), kept);
      }
    }
  }

  /** An operation is made from its payload alone. */
  function Made(address: Address, payload: Payload): Op {
    Op(address(payload), payload)
  }

  ghost predicate WrittenTwice(log: seq<Op>, i: nat, j: nat) {
    i < j < |log| && SlotOf(log[i]).Some? && SlotOf(log[i]) == SlotOf(log[j])
  }

  /** A snapshot is smaller than its log exactly when some field was written more than once. */
  lemma SnapshotShrinksIff(log: seq<Op>, kept: seq<Op>)
    requires Snapshot(log, kept)
    ensures |kept| <= |log|
    ensures |kept| < |log| <==> exists i, j :: WrittenTwice(log, i, j)
  {
    RulesOrdered();
    SnapshotHolds(log, kept);
    Election.ShrinksIff(FOLD, log, kept);
    forall i: nat, j: nat
      ensures WrittenTwice(log, i, j) <==> Election.Rivals(FOLD, log, i, j)
    {
    }
  }

  // ---- the store ----

  class Store {
    const address: Address
    var log: seq<Op>

    ghost predicate Valid()
      reads this
    {
      Election.Sorted(FOLD, log) && ContentAddressed(address, Election.Elems(log))
    }

    constructor (address: Address)
      ensures Valid() && this.address == address && log == []
    {
      this.address, log := address, [];
    }

    /** Rebuild from a snapshot and the tail appended since. */
    constructor Bootstrap(address: Address, snapshot: seq<Op>, tail: seq<Op>)
      requires Election.Sorted(FOLD, snapshot)
      requires ContentAddressed(address, Election.Elems(snapshot)) && ContentAddressed(address, Election.Elems(tail))
      ensures Valid() && this.address == address && log == Election.Merge(FOLD, snapshot, tail)
    {
      var merged := Election.MergeInto(FOLD, snapshot, tail);
      this.address, log := address, merged;
      RulesOrdered();
      Election.MergeSorted(FOLD, snapshot, tail);
    }

    /** Append a payload under its address; one already held changes nothing. */
    method AppendOp(payload: Payload) returns (id: OpId)
      requires Valid()
      modifies this
      ensures Valid() && id == address(payload)
      ensures log == Election.Merge(FOLD, old(log), [Made(address, payload)])
      ensures CollisionFree(address) ==> Election.Elems(log) == Election.Elems(old(log)) + {Made(address, payload)}
    {
      var op := Op(address(payload), payload);
      RulesOrdered();
      assert Election.Elems([op]) == {op} && [op][..0] == [];
      Election.InsertShape(FOLD, log, op);
      if CollisionFree(address) {
        ContentJoins(address, log, [op]);
        Election.InsertElems(FOLD, log, op);
      }
      log := Election.Insert(FOLD, log, op);
      id := op.id;
    }

    method MergeStore(other: Store)
      requires Valid() && other.Valid() && other.address == address
      modifies this
      ensures Valid() && log == Election.Merge(FOLD, old(log), old(other.log))
      ensures CollisionFree(address) ==> Election.Elems(log) == Election.Elems(old(log)) + Election.Elems(old(other.log))
    {
      RulesOrdered();
      Election.MergeSorted(FOLD, log, other.log);
      if CollisionFree(address) {
        ContentJoins(address, log, other.log);
        Election.MergeElems(FOLD, log, other.log);
      }
      log := Election.MergeInto(FOLD, log, other.log);
    }

    method GetField(slot: Slot) returns (v: Option<Value>)
      ensures v == FieldValue(log, slot)
    {
      var best := Election.Winner(FOLD, log, slot);
      if best.Some? && best.value.payload.Keyed? && best.value.payload.kind.Put? {
        return Some(best.value.payload.kind.value);
      }
      return None;
    }

    method Compact() returns (kept: seq<Op>)
      requires Valid()
      ensures Snapshot(log, kept)
    {
      RulesOrdered();
      assert Election.Sorted(RECLAIM, log);
      kept := Election.CompactReclaiming(RECLAIM, log);
    }
  }
}
