/**
 * Last-writer-wins over a content-addressed log, for any operations, groups, stamps and ids.
 *
 * A log is the sequence an ordered map over ids iterates: strictly ascending in the id. A read elects one operation
 * of a group; a compaction keeps one. This theory says when the two agree, for every log and every later tail.
 */
module Election {
  import opened Wrappers

  /** How operations compete: the group, the stamp and its order, the id and its order. */
  datatype Rules<!O, !G, !S, !I> = Rules(
    group: O -> Option<G>,
    stamp: O -> S,
    before: (S, S) -> bool,
    id: O -> I,
    precedes: (I, I) -> bool)

  ghost predicate StrictTotal<S(!new)>(less: (S, S) -> bool) {
    && (forall a :: !less(a, a))
    && (forall a, b, c :: less(a, b) && less(b, c) ==> less(a, c))
    && (forall a, b :: less(a, b) || less(b, a) || a == b)
  }

  ghost predicate Ordered<O, G, S(!new), I(!new)>(r: Rules<O, G, S, I>) {
    StrictTotal(r.before) && StrictTotal(r.precedes)
  }

  ghost predicate Sorted<O, G, S, I>(r: Rules<O, G, S, I>, log: seq<O>) {
    forall i, j :: 0 <= i < j < |log| ==> r.precedes(r.id(log[i]), r.id(log[j]))
  }

  ghost function Elems<O>(log: seq<O>): set<O> {
    set o | o in log
  }

  /** No two of the operations share an id: what content addressing gives. */
  ghost predicate Addressed<O, G, S, I>(r: Rules<O, G, S, I>, ops: set<O>) {
    forall x, y :: x in ops && y in ops && r.id(x) == r.id(y) ==> x == y
  }

  // ---- the operation a read elects ----

  /** Scan in id order, keeping the first and replacing it only by a strictly later stamp. */
  function Best<O, G(==), S, I>(r: Rules<O, G, S, I>, log: seq<O>, g: G): Option<O> {
    if log == [] then None
    else
      var best := Best(r, log[..|log| - 1], g);
      var o := log[|log| - 1];
      if r.group(o) != Some(g) then best
      else if best.Some? && !r.before(r.stamp(best.value), r.stamp(o)) then best
      else Some(o)
  }

  /** No operation of the group is later, and among equally late ones it has the least id. */
  ghost predicate Elected<O, G, S, I>(r: Rules<O, G, S, I>, ops: set<O>, g: G, o: O) {
    && o in ops && r.group(o) == Some(g)
    && forall p :: p in ops && r.group(p) == Some(g) ==> NotBetter(r, o, p)
  }

  ghost predicate NotBetter<O, G, S, I>(r: Rules<O, G, S, I>, o: O, p: O) {
    p == o || r.before(r.stamp(p), r.stamp(o)) || (r.stamp(p) == r.stamp(o) && r.precedes(r.id(o), r.id(p)))
  }

  ghost predicate Contested<O, G, S, I>(r: Rules<O, G, S, I>, ops: set<O>, g: G) {
    exists o :: o in ops && r.group(o) == Some(g)
  }

  lemma ElemsLast<O>(log: seq<O>)
    requires log != []
    ensures Elems(log) == Elems(log[..|log| - 1]) + {log[|log| - 1]}
  {
    assert log == log[..|log| - 1] + [log[|log| - 1]];
  }

  lemma SortedPrefix<O, G, S, I>(r: Rules<O, G, S, I>, log: seq<O>)
    requires Sorted(r, log) && log != []
    ensures Sorted(r, log[..|log| - 1])
    ensures forall p :: p in Elems(log[..|log| - 1]) ==> r.precedes(r.id(p), r.id(log[|log| - 1]))
  {
  }

  lemma {:induction false} BestIsElected<O, G, S(!new), I(!new)>(r: Rules<O, G, S, I>, log: seq<O>, g: G)
    requires Ordered(r) && Sorted(r, log)
    ensures Best(r, log, g).Some? ==> Elected(r, Elems(log), g, Best(r, log, g).value)
    ensures Best(r, log, g).None? ==> !Contested(r, Elems(log), g)
  {
    if log != [] {
      var n := |log| - 1;
      BestIsElected(r, log[..n], g);
      ElemsLast(log);
      SortedPrefix(r, log);
      ElectedStep(r, Elems(log[..n]), log[n], g, Best(r, log[..n], g));
    }
  }

  /** One more operation, with a greater id than all before it. */
  lemma ElectedStep<O, G, S(!new), I(!new)>(r: Rules<O, G, S, I>, ops: set<O>, o: O, g: G, best: Option<O>)
    requires Ordered(r)
    requires forall p :: p in ops ==> r.precedes(r.id(p), r.id(o))
    requires best.Some? ==> Elected(r, ops, g, best.value)
    requires best.None? ==> !Contested(r, ops, g)
    ensures r.group(o) != Some(g) && best.Some? ==> Elected(r, ops + {o}, g, best.value)
    ensures r.group(o) != Some(g) && best.None? ==> !Contested(r, ops + {o}, g)
    ensures r.group(o) == Some(g) && best.Some? && !r.before(r.stamp(best.value), r.stamp(o)) ==> Elected(r, ops + {o}, g, best.value)
    ensures r.group(o) == Some(g) && (best.None? || r.before(r.stamp(best.value), r.stamp(o))) ==> Elected(r, ops + {o}, g, o)
  {
    if r.group(o) == Some(g) && best.Some? && r.before(r.stamp(best.value), r.stamp(o)) {
      forall p | p in ops + {o} && r.group(p) == Some(g)
        ensures NotBetter(r, o, p)
      {
        if p != o {
          assert NotBetter(r, best.value, p);
        }
      }
    }
  }

  lemma ElectedUnique<O, G, S(!new), I(!new)>(r: Rules<O, G, S, I>, ops: set<O>, g: G, o: O, p: O)
    requires Ordered(r) && Elected(r, ops, g, o) && Elected(r, ops, g, p)
    ensures o == p
  {
    assert NotBetter(r, o, p) && NotBetter(r, p, o);
  }

  /** The scan finds the elected operation, and reports none exactly when the group has none. */
  lemma BestIff<O, G, S(!new), I(!new)>(r: Rules<O, G, S, I>, log: seq<O>, g: G, o: O)
    requires Ordered(r) && Sorted(r, log)
    ensures Best(r, log, g) == Some(o) <==> Elected(r, Elems(log), g, o)
    ensures Best(r, log, g) == None <==> !Contested(r, Elems(log), g)
  {
    BestIsElected(r, log, g);
    var best := Best(r, log, g);
    if best.Some? && Elected(r, Elems(log), g, o) {
      ElectedUnique(r, Elems(log), g, o, best.value);
    }
    if best.Some? {
      assert best.value in Elems(log) && r.group(best.value) == Some(g);
    }
  }

  // ---- the operations a compaction keeps ----

  /** No rival: ungrouped, or ahead of every other operation of its group in stamp and then in id. */
  ghost predicate Kept<O, G, S, I>(r: Rules<O, G, S, I>, ops: set<O>, o: O) {
    && o in ops
    && (r.group(o).Some? ==> forall p :: p in ops && r.group(p) == r.group(o) ==> Outranks(r, o, p))
  }

  ghost predicate Outranks<O, G, S, I>(r: Rules<O, G, S, I>, o: O, p: O) {
    p == o || r.before(r.stamp(p), r.stamp(o)) || (r.stamp(p) == r.stamp(o) && r.precedes(r.id(p), r.id(o)))
  }

  ghost function Compacted<O, G, S, I>(r: Rules<O, G, S, I>, ops: set<O>): set<O> {
    set o | o in ops && Kept(r, ops, o)
  }

  /** At most one operation of a group is kept. */
  lemma KeptUnique<O, G, S(!new), I(!new)>(r: Rules<O, G, S, I>, ops: set<O>, o: O, p: O)
    requires Ordered(r) && Kept(r, ops, o) && Kept(r, ops, p) && r.group(o).Some? && r.group(o) == r.group(p)
    ensures o == p
  {
    assert Outranks(r, o, p) && Outranks(r, p, o);
  }

  /** The operation a compaction keeps of one group. */
  ghost predicate Survives<O, G, S, I>(r: Rules<O, G, S, I>, ops: set<O>, g: G, o: O) {
    && o in ops && r.group(o) == Some(g)
    && forall p :: p in ops && r.group(p) == Some(g) ==> Outranks(r, o, p)
  }

  /** At least one operation of a group is kept. */
  lemma {:induction false} SurvivorExists<O, G, S(!new), I(!new)>(r: Rules<O, G, S, I>, ops: set<O>, g: G) returns (o: O)
    requires Ordered(r) && Addressed(r, ops) && Contested(r, ops, g)
    ensures Survives(r, ops, g, o)
    decreases |ops|
  {
    var x :| x in ops && r.group(x) == Some(g);
    var rest := ops - {x};
    if Contested(r, rest, g) {
      var y := SurvivorExists(r, rest, g);
      if Outranks(r, x, y) {
        forall p | p in ops && r.group(p) == Some(g)
          ensures Outranks(r, x, p)
        {
          if p != x {
            assert Outranks(r, y, p);
          }
        }
        return x;
      }
      assert r.id(x) != r.id(y);
      return y;
    }
    forall p | p in ops && r.group(p) == Some(g)
      ensures p == x
    {
      assert p == x || p in rest;
    }
    return x;
  }

  lemma KeptIsSurvivor<O, G, S, I>(r: Rules<O, G, S, I>, ops: set<O>, g: G, o: O)
    ensures Survives(r, ops, g, o) <==> o in Compacted(r, ops) && r.group(o) == Some(g)
  {
    if o in Compacted(r, ops) && r.group(o) == Some(g) {
      forall p | p in ops && r.group(p) == Some(g)
        ensures Outranks(r, o, p)
      {
        assert Kept(r, ops, o);
      }
    }
  }

  // ---- when reads and compaction agree ----

  /** The latest stamp of the group is borne by one operation only. */
  ghost predicate SoleLatest<O, G, S, I>(r: Rules<O, G, S, I>, ops: set<O>, g: G) {
    forall o, p :: o in ops && p in ops && Latest(r, ops, g, o) && Latest(r, ops, g, p) ==> o == p
  }

  ghost predicate Latest<O, G, S, I>(r: Rules<O, G, S, I>, ops: set<O>, g: G, o: O) {
    && r.group(o) == Some(g)
    && forall p :: p in ops && r.group(p) == Some(g) ==> !r.before(r.stamp(o), r.stamp(p))
  }

  lemma ElectedIsLatest<O, G, S(!new), I(!new)>(r: Rules<O, G, S, I>, ops: set<O>, g: G, o: O)
    requires Ordered(r)
    ensures Elected(r, ops, g, o) ==> Latest(r, ops, g, o)
    ensures Survives(r, ops, g, o) ==> Latest(r, ops, g, o)
  {
    forall p | p in ops && r.group(p) == Some(g) && (Elected(r, ops, g, o) || Survives(r, ops, g, o))
      ensures !r.before(r.stamp(o), r.stamp(p))
    {
      if Elected(r, ops, g, o) {
        assert NotBetter(r, o, p);
      } else {
        assert Outranks(r, o, p);
      }
    }
  }

  /** Two latest operations carry the same stamp. */
  lemma LatestTie<O, G, S(!new), I(!new)>(r: Rules<O, G, S, I>, ops: set<O>, g: G, o: O, p: O)
    requires Ordered(r) && o in ops && p in ops && Latest(r, ops, g, o) && Latest(r, ops, g, p)
    ensures r.stamp(o) == r.stamp(p)
  {
  }

  /** The elected operation is the one kept exactly when the latest stamp is not shared. */
  lemma ElectedSurvivesIff<O, G, S(!new), I(!new)>(r: Rules<O, G, S, I>, ops: set<O>, g: G, o: O)
    requires Ordered(r) && Elected(r, ops, g, o)
    ensures Survives(r, ops, g, o) <==> SoleLatest(r, ops, g)
  {
    ElectedIsLatest(r, ops, g, o);
    if Survives(r, ops, g, o) {
      forall x | x in ops && Latest(r, ops, g, x)
        ensures x == o
      {
        LatestTie(r, ops, g, x, o);
        assert NotBetter(r, o, x) && Outranks(r, o, x);
      }
    }
    if SoleLatest(r, ops, g) {
      forall p | p in ops && r.group(p) == Some(g)
        ensures Outranks(r, o, p)
      {
        assert NotBetter(r, o, p);
        if p != o && r.stamp(p) == r.stamp(o) {
          assert Latest(r, ops, g, p);
        }
      }
    }
  }

  /** A part of the operations elects the same one as the whole, as long as it has it. */
  lemma ElectedInPart<O, G, S, I>(r: Rules<O, G, S, I>, ops: set<O>, part: set<O>, g: G, o: O)
    requires part <= ops && Elected(r, ops, g, o)
    ensures Elected(r, part, g, o) <==> o in part
  {
  }

  ghost function Backwards<O, G, S, I>(r: Rules<O, G, S, I>): Rules<O, G, S, I> {
    r.(precedes := (a, b) => r.precedes(b, a))
  }

  lemma ElectedExists<O, G, S(!new), I(!new)>(r: Rules<O, G, S, I>, ops: set<O>, g: G) returns (o: O)
    requires Ordered(r) && Addressed(r, ops) && Contested(r, ops, g)
    ensures Elected(r, ops, g, o)
  {
    var b := Backwards(r);
    assert Ordered(b);
    o := SurvivorExists(b, ops, g);
    forall p | p in ops && r.group(p) == Some(g)
      ensures NotBetter(r, o, p)
    {
      assert Outranks(b, o, p);
    }
  }

  /** After compaction a read elects what was kept. */
  lemma ElectedAfter<O, G, S(!new), I(!new)>(r: Rules<O, G, S, I>, ops: set<O>, g: G, o: O)
    requires Ordered(r) && Addressed(r, ops)
    ensures Elected(r, Compacted(r, ops), g, o) <==> Survives(r, ops, g, o)
  {
    KeptIsSurvivor(r, ops, g, o);
    if Survives(r, ops, g, o) {
      forall p | p in Compacted(r, ops) && r.group(p) == Some(g)
        ensures p == o
      {
        KeptUnique(r, ops, o, p);
      }
    }
  }

  /** With the tail that came later, the compacted log elects what the full log elects. */
  ghost predicate Agrees<O(!new), G, S, I>(r: Rules<O, G, S, I>, ops: set<O>, tail: set<O>, g: G) {
    forall o :: Elected(r, Compacted(r, ops) + tail, g, o) <==> Elected(r, ops + tail, g, o)
  }

  lemma AgreesWhenSole<O(!new), G, S(!new), I(!new)>(r: Rules<O, G, S, I>, ops: set<O>, tail: set<O>, g: G)
    requires Ordered(r) && Addressed(r, ops + tail) && SoleLatest(r, ops, g)
    ensures Agrees(r, ops, tail, g)
  {
    var all, part := ops + tail, Compacted(r, ops) + tail;
    forall o | Elected(r, all, g, o)
      ensures Elected(r, part, g, o)
    {
      if o !in tail {
        ElectedInPart(r, all, ops, g, o);
        ElectedSurvivesIff(r, ops, g, o);
        KeptIsSurvivor(r, ops, g, o);
      }
      ElectedInPart(r, all, part, g, o);
    }
    forall o | Elected(r, part, g, o)
      ensures Elected(r, all, g, o)
    {
      assert o in all;
      var w := ElectedExists(r, all, g);
      ElectedUnique(r, part, g, w, o);
    }
  }

  /** A compaction is invisible to every read after every later tail exactly when the latest stamp is not shared. */
  lemma AlwaysAgreesIff<O(!new), G, S(!new), I(!new)>(r: Rules<O, G, S, I>, ops: set<O>, g: G)
    requires Ordered(r) && Addressed(r, ops)
    ensures (forall tail: set<O> :: Addressed(r, ops + tail) ==> Agrees(r, ops, tail, g)) <==> SoleLatest(r, ops, g)
  {
    if SoleLatest(r, ops, g) {
      forall tail: set<O> | Addressed(r, ops + tail)
        ensures Agrees(r, ops, tail, g)
      {
        AgreesWhenSole(r, ops, tail, g);
      }
    }
    if forall tail: set<O> :: Addressed(r, ops + tail) ==> Agrees(r, ops, tail, g) {
      var none: set<O> := {};
      assert ops + none == ops && Compacted(r, ops) + none == Compacted(r, ops);
      assert Addressed(r, ops + none);
      assert Agrees(r, ops, none, g);
      if Contested(r, ops, g) {
        var w := ElectedExists(r, ops, g);
        ElectedAfter(r, ops, g, w);
        ElectedSurvivesIff(r, ops, g, w);
      }
    }
  }

  // ---- logs ----

  /** Entering an operation keeps the one already under its id. */
  function Insert<O, G, S, I(==)>(r: Rules<O, G, S, I>, log: seq<O>, o: O): seq<O> {
    if log == [] then [o]
    else if r.id(log[0]) == r.id(o) then log
    else if r.precedes(r.id(o), r.id(log[0])) then [o] + log
    else [log[0]] + Insert(r, log[1..], o)
  }

  function Merge<O, G, S, I(==)>(r: Rules<O, G, S, I>, log: seq<O>, other: seq<O>): seq<O> {
    if other == [] then log else Insert(r, Merge(r, log, other[..|other| - 1]), other[|other| - 1])
  }

  lemma SortedCons<O, G, S, I>(r: Rules<O, G, S, I>, first: O, rest: seq<O>)
    requires Sorted(r, rest) && forall x :: x in Elems(rest) ==> r.precedes(r.id(first), r.id(x))
    ensures Sorted(r, [first] + rest)
  {
    var log := [first] + rest;
    forall i, j | 0 <= i < j < |log|
      ensures r.precedes(r.id(log[i]), r.id(log[j]))
    {
      assert rest[j - 1] in Elems(rest);
    }
  }

  lemma ElemsCons<O>(first: O, rest: seq<O>)
    ensures Elems([first] + rest) == {first} + Elems(rest)
  {
  }

  lemma SortedRest<O, G, S, I>(r: Rules<O, G, S, I>, log: seq<O>)
    requires Sorted(r, log) && log != []
    ensures Sorted(r, log[1..]) && Elems(log) == {log[0]} + Elems(log[1..])
    ensures forall x :: x in Elems(log[1..]) ==> r.precedes(r.id(log[0]), r.id(x))
  {
    assert log == [log[0]] + log[1..];
    ElemsCons(log[0], log[1..]);
  }

  lemma SortedFront<O, G, S(!new), I(!new)>(r: Rules<O, G, S, I>, log: seq<O>, o: O)
    requires Ordered(r) && Sorted(r, log) && log != [] && r.precedes(r.id(o), r.id(log[0]))
    ensures Sorted(r, [o] + log)
  {
    SortedRest(r, log);
    SortedCons(r, o, log);
  }

  ghost predicate Holds<O, G, S, I>(r: Rules<O, G, S, I>, log: seq<O>, id: I) {
    exists x :: x in Elems(log) && r.id(x) == id
  }

  /** Whatever is entered the log stays one, and holds one operation more unless the id was taken. */
  lemma {:induction false} InsertShape<O, G, S(!new), I(!new)>(r: Rules<O, G, S, I>, log: seq<O>, o: O)
    requires Ordered(r) && Sorted(r, log)
    ensures Sorted(r, Insert(r, log, o))
    ensures Elems(Insert(r, log, o)) == if Holds(r, log, r.id(o)) then Elems(log) else Elems(log) + {o}
  {
    if log != [] {
      var first, rest := log[0], log[1..];
      SortedRest(r, log);
      if r.id(first) == r.id(o) {
        assert first in Elems(log);
      } else if r.precedes(r.id(o), r.id(first)) {
        ElemsCons(o, log);
        SortedFront(r, log, o);
        assert !Holds(r, log, r.id(o));
      } else {
        InsertShape(r, rest, o);
        ElemsCons(first, Insert(r, rest, o));
        assert Holds(r, log, r.id(o)) <==> Holds(r, rest, r.id(o));
        SortedCons(r, first, Insert(r, rest, o));
      }
    }
  }

  lemma InsertElems<O, G, S(!new), I(!new)>(r: Rules<O, G, S, I>, log: seq<O>, o: O)
    requires Ordered(r) && Sorted(r, log) && Addressed(r, Elems(log) + {o})
    ensures Sorted(r, Insert(r, log, o)) && Elems(Insert(r, log, o)) == Elems(log) + {o}
  {
    InsertShape(r, log, o);
    if x :| x in Elems(log) && r.id(x) == r.id(o) {
      assert x == o;
    }
  }

  lemma {:induction false} MergeSorted<O, G, S(!new), I(!new)>(r: Rules<O, G, S, I>, log: seq<O>, other: seq<O>)
    requires Ordered(r) && Sorted(r, log)
    ensures Sorted(r, Merge(r, log, other)) && Elems(Merge(r, log, other)) <= Elems(log) + Elems(other)
  {
    if other != [] {
      var n := |other| - 1;
      ElemsLast(other);
      MergeSorted(r, log, other[..n]);
      InsertShape(r, Merge(r, log, other[..n]), other[n]);
    }
  }

  lemma {:induction false} MergeElems<O, G, S(!new), I(!new)>(r: Rules<O, G, S, I>, log: seq<O>, other: seq<O>)
    requires Ordered(r) && Sorted(r, log) && Addressed(r, Elems(log) + Elems(other))
    ensures Sorted(r, Merge(r, log, other)) && Elems(Merge(r, log, other)) == Elems(log) + Elems(other)
  {
    if other == [] {
      assert Elems(log) + Elems(other) == Elems(log);
    } else {
      var n := |other| - 1;
      ElemsLast(other);
      MergeElems(r, log, other[..n]);
      InsertElems(r, Merge(r, log, other[..n]), other[n]);
    }
  }

  lemma EmptyElems<O>(log: seq<O>)
    ensures log == [] <==> Elems(log) == {}
  {
    if log != [] {
      assert log[0] in Elems(log);
    }
  }

  /** A log is determined by what it holds. */
  lemma {:induction false} SortedUnique<O, G, S(!new), I(!new)>(r: Rules<O, G, S, I>, a: seq<O>, b: seq<O>)
    requires Ordered(r) && Sorted(r, a) && Sorted(r, b) && Elems(a) == Elems(b)
    ensures a == b
    decreases |a|
  {
    EmptyElems(a);
    EmptyElems(b);
    if a != [] {
      var n, m := |a| - 1, |b| - 1;
      ElemsLast(a);
      ElemsLast(b);
      SortedPrefix(r, a);
      SortedPrefix(r, b);
      assert a[n] in Elems(b) && b[m] in Elems(a);
      assert a[n] == b[m];
      assert Elems(a[..n]) == Elems(a) - {a[n]} && Elems(b[..m]) == Elems(b) - {b[m]};
      SortedUnique(r, a[..n], b[..m]);
      assert a == a[..n] + [a[n]] && b == b[..m] + [b[m]];
    }
  }

  /** Replicas that have between them seen the same operations hold the same log, in whatever order, from whatever
      start and however often they arrived. */
  lemma Converges<O, G, S(!new), I(!new)>(r: Rules<O, G, S, I>, a: seq<O>, arrivedA: seq<O>, b: seq<O>, arrivedB: seq<O>)
    requires Ordered(r) && Sorted(r, a) && Sorted(r, b)
    requires Elems(a) + Elems(arrivedA) == Elems(b) + Elems(arrivedB)
    requires Addressed(r, Elems(a) + Elems(arrivedA))
    ensures Merge(r, a, arrivedA) == Merge(r, b, arrivedB)
  {
    MergeElems(r, a, arrivedA);
    MergeElems(r, b, arrivedB);
    SortedUnique(r, Merge(r, a, arrivedA), Merge(r, b, arrivedB));
  }

  lemma {:induction false} SortedSize<O, G, S(!new), I(!new)>(r: Rules<O, G, S, I>, log: seq<O>)
    requires Ordered(r) && Sorted(r, log)
    ensures |Elems(log)| == |log| && Addressed(r, Elems(log))
  {
    if log != [] {
      SortedSize(r, log[..|log| - 1]);
      ElemsLast(log);
      SortedPrefix(r, log);
    }
  }

  ghost predicate IsCompaction<O, G, S, I>(r: Rules<O, G, S, I>, log: seq<O>, kept: seq<O>) {
    Sorted(r, kept) && Elems(kept) == Compacted(r, Elems(log))
  }

  ghost predicate Rivals<O, G, S, I>(r: Rules<O, G, S, I>, log: seq<O>, i: nat, j: nat) {
    i < j < |log| && r.group(log[i]).Some? && r.group(log[i]) == r.group(log[j])
  }

  /** Space is reclaimed exactly when some group has more than one operation. */
  lemma ShrinksIff<O, G, S(!new), I(!new)>(r: Rules<O, G, S, I>, log: seq<O>, kept: seq<O>)
    requires Ordered(r) && Sorted(r, log) && IsCompaction(r, log, kept)
    ensures |kept| < |log| <==> exists i, j :: Rivals(r, log, i, j)
    ensures |kept| <= |log|
  {
    var all, some := Elems(log), Elems(kept);
    SortedSize(r, log);
    SortedSize(r, kept);
    SubsetSize(some, all);
    if i: nat, j: nat :| Rivals(r, log, i, j) {
      assert log[i] in all && log[j] in all && r.precedes(r.id(log[i]), r.id(log[j]));
      if some == all {
        KeptUnique(r, all, log[i], log[j]);
      }
    }
    if some != all {
      var o :| o in all && o !in some;
      var p :| p in all && r.group(o).Some? && r.group(p) == r.group(o) && !Outranks(r, o, p);
      var i :| 0 <= i < |log| && log[i] == o;
      var j :| 0 <= j < |log| && log[j] == p;
      assert Rivals(r, log, i, j) || Rivals(r, log, j, i);
    }
  }

  lemma SubsetSize<T>(a: set<T>, b: set<T>)
    requires a <= b
    ensures |a| <= |b| && (|a| == |b| <==> a == b)
  {
    assert b == a + (b - a);
  }

  /** Compacting again changes nothing. */
  lemma CompactsOnce<O, G, S(!new), I(!new)>(r: Rules<O, G, S, I>, log: seq<O>, kept: seq<O>)
    requires Ordered(r) && Sorted(r, log) && IsCompaction(r, log, kept)
    ensures IsCompaction(r, kept, kept)
  {
    var all, some := Elems(log), Elems(kept);
    forall o | o in some
      ensures Kept(r, some, o)
    {
      assert Kept(r, all, o);
    }
  }

  // ---- the log's own loops ----

  /** The later of the two by stamp and then by id. */
  predicate Ahead<O, G, S(==), I>(r: Rules<O, G, S, I>, current: O, candidate: O) {
    || r.before(r.stamp(current), r.stamp(candidate))
    || (r.stamp(current) == r.stamp(candidate) && r.precedes(r.id(current), r.id(candidate)))
  }

  function Survivor<O, G(==), S(==), I>(r: Rules<O, G, S, I>, log: seq<O>, g: G): (best: Option<O>)
    ensures best.Some? ==> best.value in log && r.group(best.value) == Some(g)
  {
    if log == [] then None
    else
      var best := Survivor(r, log[..|log| - 1], g);
      var o := log[|log| - 1];
      if r.group(o) != Some(g) then best
      else if best.Some? && !Ahead(r, best.value, o) then best
      else Some(o)
  }

  lemma SurvivesStep<O, G, S(!new), I(!new)>(r: Rules<O, G, S, I>, ops: set<O>, o: O, g: G, best: Option<O>)
    requires Ordered(r)
    requires forall p :: p in ops ==> r.precedes(r.id(p), r.id(o))
    requires best.Some? ==> Survives(r, ops, g, best.value)
    requires best.None? ==> !Contested(r, ops, g)
    ensures r.group(o) != Some(g) && best.Some? ==> Survives(r, ops + {o}, g, best.value)
    ensures r.group(o) != Some(g) && best.None? ==> !Contested(r, ops + {o}, g)
    ensures r.group(o) == Some(g) && best.Some? && !Ahead(r, best.value, o) ==> Survives(r, ops + {o}, g, best.value)
    ensures r.group(o) == Some(g) && (best.None? || Ahead(r, best.value, o)) ==> Survives(r, ops + {o}, g, o)
  {
    if r.group(o) == Some(g) && best.Some? && Ahead(r, best.value, o) {
      forall p | p in ops + {o} && r.group(p) == Some(g)
        ensures Outranks(r, o, p)
      {
        if p != o {
          assert Outranks(r, best.value, p);
        }
      }
    }
  }

  lemma {:induction false} SurvivorSurvives<O, G, S(!new), I(!new)>(r: Rules<O, G, S, I>, log: seq<O>, g: G)
    requires Ordered(r) && Sorted(r, log)
    ensures Survivor(r, log, g).Some? ==> Survives(r, Elems(log), g, Survivor(r, log, g).value)
    ensures Survivor(r, log, g).None? ==> !Contested(r, Elems(log), g)
  {
    if log != [] {
      var n := |log| - 1;
      SurvivorSurvives(r, log[..n], g);
      ElemsLast(log);
      SortedPrefix(r, log);
      SurvivesStep(r, Elems(log[..n]), log[n], g, Survivor(r, log[..n], g));
    }
  }

  lemma SurvivorIff<O, G, S(!new), I(!new)>(r: Rules<O, G, S, I>, log: seq<O>, o: O)
    requires Ordered(r) && Sorted(r, log)
    ensures o in Compacted(r, Elems(log)) <==>
            o in log && (r.group(o).None? || Survivor(r, log, r.group(o).value) == Some(o))
  {
    if o in log && r.group(o).Some? {
      var g := r.group(o).value;
      SurvivorSurvives(r, log, g);
      KeptIsSurvivor(r, Elems(log), g, o);
      var best := Survivor(r, log, g);
      assert o in Elems(log);
      KeptIsSurvivor(r, Elems(log), g, best.value);
      if o in Compacted(r, Elems(log)) {
        KeptUnique(r, Elems(log), o, best.value);
      }
    }
  }

  method Winner<O, G(==), S, I>(r: Rules<O, G, S, I>, log: seq<O>, g: G) returns (best: Option<O>)
    ensures best == Best(r, log, g)
  {
    best := None;
    for i := 0 to |log|
      invariant best == Best(r, log[..i], g)
    {
      assert log[..i + 1][..i] == log[..i];
      if r.group(log[i]) == Some(g) {
        if best.None? || r.before(r.stamp(best.value), r.stamp(log[i])) {
          best := Some(log[i]);
        }
      }
    }
    assert log[..|log|] == log;
  }

  method MergeInto<O, G, S, I(==)>(r: Rules<O, G, S, I>, log: seq<O>, other: seq<O>) returns (merged: seq<O>)
    ensures merged == Merge(r, log, other)
  {
    merged := log;
    for i := 0 to |other|
      invariant merged == Merge(r, log, other[..i])
    {
      assert other[..i + 1][..i] == other[..i];
      merged := Insert(r, merged, other[i]);
    }
    assert other[..|other|] == other;
  }

  /** The table holds, for every group of the log, the stamp and the id of its survivor. */
  ghost predicate Tracks<O, G(!new), S, I>(r: Rules<O, G, S, I>, log: seq<O>, winners: map<G, (S, I)>) {
    forall g :: Tracked(r, log, winners, g)
  }

  ghost predicate Tracked<O, G, S, I>(r: Rules<O, G, S, I>, log: seq<O>, winners: map<G, (S, I)>, g: G) {
    var best := Survivor(r, log, g);
    if best.None? then g !in winners
    else g in winners && winners[g] == (r.stamp(best.value), r.id(best.value))
  }

  /** One entry of the table against one more operation of the group. */
  predicate Replaces<O, G, S(==), I>(r: Rules<O, G, S, I>, winners: map<G, (S, I)>, g: G, o: O) {
    || g !in winners
    || r.before(winners[g].0, r.stamp(o))
    || (winners[g].0 == r.stamp(o) && r.precedes(winners[g].1, r.id(o)))
  }

  function Entered<O, G(==), S(==), I>(r: Rules<O, G, S, I>, winners: map<G, (S, I)>, o: O): map<G, (S, I)> {
    var group := r.group(o);
    if group.Some? && Replaces(r, winners, group.value, o) then winners[group.value := (r.stamp(o), r.id(o))] else winners
  }

  lemma TracksStep<O, G(!new), S, I>(r: Rules<O, G, S, I>, log: seq<O>, winners: map<G, (S, I)>, o: O)
    requires Tracks(r, log, winners)
    ensures Tracks(r, log + [o], Entered(r, winners, o))
  {
    assert (log + [o])[..|log|] == log;
    forall g
      ensures Tracked(r, log + [o], Entered(r, winners, o), g)
    {
      assert Tracked(r, log, winners, g);
    }
  }

  ghost predicate IsLoose<O(!new), G, S, I>(r: Rules<O, G, S, I>, log: seq<O>, loose: seq<O>) {
    Sorted(r, loose) && forall o :: o in loose <==> o in log && r.group(o).None?
  }

  /** The survivors of all groups in one pass, and the ungrouped operations beside them. */
  method Contest<O(!new), G(==, !new), S(==, !new), I(==, !new)>(r: Rules<O, G, S, I>, log: seq<O>)
    returns (winners: map<G, (S, I)>, loose: seq<O>)
    requires Ordered(r) && Sorted(r, log)
    ensures Tracks(r, log, winners) && IsLoose(r, log, loose)
  {
    winners := map[];
    loose := [];
    for i := 0 to |log|
      invariant Tracks(r, log[..i], winners)
      invariant IsLoose(r, log[..i], loose)
    {
      assert log[..i + 1] == log[..i] + [log[i]];
      TracksStep(r, log[..i], winners, log[i]);
      LooseStep(r, log, i, loose);
      var group := r.group(log[i]);
      match group
      case None =>
        loose := Insert(r, loose, log[i]);
      case Some(g) =>
        if Replaces(r, winners, g, log[i]) {
          winners := winners[g := (r.stamp(log[i]), r.id(log[i]))];
        }
    }
    assert log[..|log|] == log;
  }

  lemma LooseStep<O(!new), G, S(!new), I(!new)>(r: Rules<O, G, S, I>, log: seq<O>, i: nat, loose: seq<O>)
    requires Ordered(r) && Sorted(r, log) && i < |log| && IsLoose(r, log[..i], loose)
    ensures IsLoose(r, log[..i + 1], if r.group(log[i]).None? then Insert(r, loose, log[i]) else loose)
  {
    assert log[..i + 1] == log[..i] + [log[i]];
    if r.group(log[i]).None? {
      SortedSize(r, log);
      assert forall o :: o in Elems(loose) + {log[i]} ==> o in Elems(log);
      InsertElems(r, loose, log[i]);
      assert forall o :: o in Insert(r, loose, log[i]) <==> o in Elems(Insert(r, loose, log[i]));
    }
  }

  method Lookup<O, G, S, I(==)>(r: Rules<O, G, S, I>, log: seq<O>, id: I) returns (found: Option<O>)
    ensures found.Some? ==> found.value in log && r.id(found.value) == id
    ensures found.None? ==> forall o :: o in log ==> r.id(o) != id
  {
    for i := 0 to |log|
      invariant forall o :: o in log[..i] ==> r.id(o) != id
    {
      if r.id(log[i]) == id {
        return Some(log[i]);
      }
    }
    assert log[..|log|] == log;
    return None;
  }

  /** Keep the ungrouped operations and the survivor of every group, in whatever order the groups are visited. */
  method CompactReclaiming<O(!new), G(==, !new), S(==, !new), I(==, !new)>(r: Rules<O, G, S, I>, log: seq<O>) returns (kept: seq<O>)
    requires Ordered(r) && Sorted(r, log)
    ensures IsCompaction(r, log, kept)
  {
    var winners, loose := Contest(r, log);
    kept := loose;
    var todo := winners.Keys;
    while todo != {}
      invariant todo <= winners.Keys
      invariant Gathered(r, log, winners.Keys - todo, kept)
      decreases |todo|
    {
      var g :| g in todo;
      var found := Lookup(r, log, winners[g].1);
      Collect(r, log, winners, todo, g, kept, found);
      if found.Some? {
        kept := Insert(r, kept, found.value);
      }
      todo := todo - {g};
    }
    assert winners.Keys - todo == winners.Keys;
    Complete(r, log, winners, kept);
  }

  ghost predicate Gathered<O(!new), G, S, I>(r: Rules<O, G, S, I>, log: seq<O>, done: set<G>, kept: seq<O>) {
    Sorted(r, kept) && forall o :: o in kept <==> o in log && Collected(r, log, done, o)
  }

  ghost predicate Collected<O, G, S, I>(r: Rules<O, G, S, I>, log: seq<O>, done: set<G>, o: O) {
    r.group(o).None? || (r.group(o).value in done && Survivor(r, log, r.group(o).value) == Some(o))
  }

  lemma Collect<O(!new), G(!new), S(!new), I(!new)>(
    r: Rules<O, G, S, I>, log: seq<O>, winners: map<G, (S, I)>, todo: set<G>, g: G, kept: seq<O>, found: Option<O>)
    requires Ordered(r) && Sorted(r, log) && Tracks(r, log, winners)
    requires todo <= winners.Keys && g in todo && Gathered(r, log, winners.Keys - todo, kept)
    requires found.Some? ==> found.value in log && r.id(found.value) == winners[g].1
    requires found.None? ==> forall o :: o in log ==> r.id(o) != winners[g].1
    ensures found.Some? && Gathered(r, log, winners.Keys - (todo - {g}), Insert(r, kept, found.value))
  {
    assert Tracked(r, log, winners, g);
    var best := Survivor(r, log, g).value;
    SortedSize(r, log);
    assert best in Elems(log);
    assert found.Some? && found.value in Elems(log) && found.value == best;
    assert forall o :: o in Elems(kept) + {best} ==> o in Elems(log);
    InsertElems(r, kept, best);
    forall o
      ensures o in Insert(r, kept, best) <==> o in log && Collected(r, log, winners.Keys - (todo - {g}), o)
    {
      assert o in Insert(r, kept, best) <==> o in Elems(Insert(r, kept, best));
    }
  }

  lemma Complete<O(!new), G(!new), S(!new), I(!new)>(r: Rules<O, G, S, I>, log: seq<O>, winners: map<G, (S, I)>, kept: seq<O>)
    requires Ordered(r) && Sorted(r, log) && Tracks(r, log, winners) && Gathered(r, log, winners.Keys, kept)
    ensures IsCompaction(r, log, kept)
  {
    forall o
      ensures o in Elems(kept) <==> o in Compacted(r, Elems(log))
    {
      SurvivorIff(r, log, o);
      if r.group(o).Some? {
        assert Tracked(r, log, winners, r.group(o).value);
      }
    }
  }
}
