/** Event sourcing in the abstract: numbered events written into a set, read back in any order, and
    replayed per id to the one with the greatest number. */
module Replay {
  import opened Wrappers

  /** What reading one payload yields: its number, its id, and the new value or its removal. */
  datatype Entry<I, V> = Entry(seqNo: nat, id: I, value: Option<V>)

  /** The matching entry with the greatest number; the first one of equals. */
  function Latest<P, I(==), V>(read: P -> Option<Entry<I, V>>, order: seq<P>, id: I): Option<Entry<I, V>> {
    if order == [] then None
    else
      var best, e := Latest(read, order[..|order| - 1], id), read(order[|order| - 1]);
      if e.Some? && e.value.id == id && (best.None? || e.value.seqNo > best.value.seqNo) then e else best
  }

  function Resolve<I, V>(latest: Option<Entry<I, V>>): Option<V> {
    if latest.None? then None else latest.value.value
  }

  /** The payloads a run wrote: operation number `i` is written under `i`. */
  function Log<P(==), O>(write: (nat, O) -> P, ops: seq<O>): set<P> {
    if ops == [] then {} else Log(write, ops[..|ops| - 1]) + {write(|ops| - 1, ops[|ops| - 1])}
  }

  /** The meaning of a run as a plain map. */
  function Meaning<O, I(==), V>(idOf: O -> I, valueOf: O -> Option<V>, ops: seq<O>): map<I, V> {
    if ops == [] then map[]
    else
      var m, op := Meaning(idOf, valueOf, ops[..|ops| - 1]), ops[|ops| - 1];
      match valueOf(op)
      case Some(v) => m[idOf(op) := v]
      case None => m - {idOf(op)}
  }

  function Lookup<I(==), V>(m: map<I, V>, id: I): Option<V> {
    if id in m then Some(m[id]) else None
  }

  lemma {:induction false} LogIs<P(!new), O>(write: (nat, O) -> P, ops: seq<O>)
    ensures forall p :: p in Log(write, ops) <==> exists i: nat :: i < |ops| && p == write(i, ops[i])
  {
    if ops != [] {
      var before := ops[..|ops| - 1];
      LogIs(write, before);
      assert forall i: nat :: i < |before| ==> ops[i] == before[i];
    }
  }

  /** Payloads written under different numbers being different, the set holds one per operation. */
  lemma {:induction false} LogSize<P(!new), O>(write: (nat, O) -> P, numberOf: P -> Option<nat>, ops: seq<O>)
    requires forall i: nat :: i < |ops| ==> numberOf(write(i, ops[i])) == Some(i)
    ensures |Log(write, ops)| == |ops|
  {
    if ops != [] {
      var before, last := ops[..|ops| - 1], |ops| - 1;
      assert forall i: nat :: i < |before| ==> ops[i] == before[i];
      LogSize(write, numberOf, before);
      LogIs(write, before);
      assert numberOf(write(last, ops[last])) == Some(last);
      assert write(last, ops[last]) !in Log(write, before);
    }
  }

  /** Some payload of the enumeration is read as `e`. */
  ghost predicate Reads<P, I, V>(read: P -> Option<Entry<I, V>>, order: seq<P>, e: Entry<I, V>) {
    exists k :: 0 <= k < |order| && read(order[k]) == Some(e)
  }

  lemma ReadsPrefix<P, I, V>(read: P -> Option<Entry<I, V>>, order: seq<P>, e: Entry<I, V>)
    requires order != []
    ensures Reads(read, order, e) <==> Reads(read, order[..|order| - 1], e) || read(order[|order| - 1]) == Some(e)
  {
    var before := order[..|order| - 1];
    if Reads(read, before, e) {
      var k :| 0 <= k < |before| && read(before[k]) == Some(e);
      assert read(order[k]) == Some(e);
    }
    if Reads(read, order, e) && read(order[|order| - 1]) != Some(e) {
      var k :| 0 <= k < |order| && read(order[k]) == Some(e);
      assert read(before[k]) == Some(e);
    }
  }

  lemma {:induction false} LatestIsGreatest<P, I(!new), V(!new)>(read: P -> Option<Entry<I, V>>, order: seq<P>, id: I)
    ensures var best := Latest(read, order, id);
            && (best.Some? ==> Reads(read, order, best.value) && best.value.id == id)
            && forall e :: Reads(read, order, e) && e.id == id ==> best.Some? && e.seqNo <= best.value.seqNo
  {
    if order != [] {
      LatestIsGreatest(read, order[..|order| - 1], id);
      forall e: Entry<I, V>
        ensures Reads(read, order, e) <==> Reads(read, order[..|order| - 1], e) || read(order[|order| - 1]) == Some(e)
      {
        ReadsPrefix(read, order, e);
      }
    }
  }

  /** The last operation concerning an id. */
  function LastAbout<O, I(==)>(idOf: O -> I, ops: seq<O>, id: I): Option<nat> {
    if ops == [] then None
    else if idOf(ops[|ops| - 1]) == id then Some(|ops| - 1)
    else LastAbout(idOf, ops[..|ops| - 1], id)
  }

  lemma {:induction false} MeaningIsLast<O, I, V>(idOf: O -> I, valueOf: O -> Option<V>, ops: seq<O>, id: I)
    ensures var last := LastAbout(idOf, ops, id);
            && (last.Some? ==> last.value < |ops| && idOf(ops[last.value]) == id)
            && (forall i :: 0 <= i < |ops| && idOf(ops[i]) == id ==> last.Some? && i <= last.value)
            && Lookup(Meaning(idOf, valueOf, ops), id) == if last.None? then None else valueOf(ops[last.value])
  {
    if ops != [] {
      var before := ops[..|ops| - 1];
      MeaningIsLast(idOf, valueOf, before, id);
      assert forall i :: 0 <= i < |before| ==> ops[i] == before[i];
    }
  }

  /** No operation after `k` is about the id operation `k` is about. */
  ghost predicate IsLastAbout<O, I>(idOf: O -> I, ops: seq<O>, k: nat) {
    k < |ops| && forall j :: k < j < |ops| ==> idOf(ops[j]) != idOf(ops[k])
  }

  /** The entry of an id is the value of the last operation about it. */
  lemma MeaningAt<O, I, V>(idOf: O -> I, valueOf: O -> Option<V>, ops: seq<O>, k: nat)
    requires IsLastAbout(idOf, ops, k)
    ensures Lookup(Meaning(idOf, valueOf, ops), idOf(ops[k])) == valueOf(ops[k])
  {
    MeaningIsLast(idOf, valueOf, ops, idOf(ops[k]));
  }

  lemma MeaningOfUnnamed<O, I, V>(idOf: O -> I, valueOf: O -> Option<V>, ops: seq<O>, id: I)
    requires forall j :: 0 <= j < |ops| ==> idOf(ops[j]) != id
    ensures Lookup(Meaning(idOf, valueOf, ops), id) == None
  {
    MeaningIsLast(idOf, valueOf, ops, id);
  }

  /** An enumeration of a set, in any order. */
  ghost predicate Enumerates<P(!new)>(order: seq<P>, log: set<P>) {
    forall p :: p in log <==> exists k :: 0 <= k < |order| && order[k] == p
  }

  /** Writing then reading numbers below the limit: a visible operation yields its entry, an
      invisible one nothing. */
  ghost predicate Faithful<P, O(!new), I, V>(
    write: (nat, O) -> P, read: P -> Option<Entry<I, V>>, idOf: O -> I, valueOf: O -> Option<V>, visible: I -> bool, limit: nat)
  {
    forall i: nat, op: O :: i < limit ==>
      read(write(i, op)) == if visible(idOf(op)) then Some(Entry(i, idOf(op), valueOf(op))) else None
  }

  lemma ReadsIff<P(!new), O(!new), I, V>(
    write: (nat, O) -> P, read: P -> Option<Entry<I, V>>, idOf: O -> I, valueOf: O -> Option<V>, visible: I -> bool, limit: nat,
    ops: seq<O>, order: seq<P>, e: Entry<I, V>)
    requires Faithful(write, read, idOf, valueOf, visible, limit)
    requires |ops| <= limit && Enumerates(order, Log(write, ops))
    ensures Reads(read, order, e) <==>
            && e.seqNo < |ops| && visible(e.id)
            && e.id == idOf(ops[e.seqNo]) && e.value == valueOf(ops[e.seqNo])
  {
    LogIs(write, ops);
    if Reads(read, order, e) {
      var k :| 0 <= k < |order| && read(order[k]) == Some(e);
      assert order[k] in Log(write, ops);
      var i: nat :| i < |ops| && order[k] == write(i, ops[i]);
    }
    if e.seqNo < |ops| && visible(e.id) && e.id == idOf(ops[e.seqNo]) && e.value == valueOf(ops[e.seqNo]) {
      var p := write(e.seqNo, ops[e.seqNo]);
      assert p in Log(write, ops);
      var k :| 0 <= k < |order| && order[k] == p;
      assert read(order[k]) == Some(e);
    }
  }

  /** In whatever order the log of a run is enumerated, replaying it for a visible id gives the entry
      of the plain map; an invisible id resolves to nothing. */
  lemma ReplayRefinesMap<P(!new), O(!new), I(!new), V(!new)>(
    write: (nat, O) -> P, read: P -> Option<Entry<I, V>>, idOf: O -> I, valueOf: O -> Option<V>, visible: I -> bool, limit: nat,
    ops: seq<O>, order: seq<P>, id: I)
    requires Faithful(write, read, idOf, valueOf, visible, limit)
    requires |ops| <= limit && Enumerates(order, Log(write, ops))
    ensures Resolve(Latest(read, order, id)) ==
            if visible(id) then Lookup(Meaning(idOf, valueOf, ops), id) else None
  {
    LatestIsGreatest(read, order, id);
    MeaningIsLast(idOf, valueOf, ops, id);
    var last, latest := LastAbout(idOf, ops, id), Latest(read, order, id);
    if latest.Some? {
      ReadsIff(write, read, idOf, valueOf, visible, limit, ops, order, latest.value);
    }
    if visible(id) && last.Some? {
      var e := Entry(last.value, id, valueOf(ops[last.value]));
      ReadsIff(write, read, idOf, valueOf, visible, limit, ops, order, e);
      assert Reads(read, order, e);
    }
  }
}
