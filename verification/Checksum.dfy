/** Cyclic checksums in the abstract: a register over some group of words, folded with one symbol at
    a time. The results hold for every such register that obeys the laws named here. */
module Checksum {

  /** `n` steps of `f`. */
  function Iterate<W>(f: W -> W, w: W, n: nat): W
    decreases n
  {
    if n == 0 then w else Iterate(f, f(w), n - 1)
  }

  /** How symbols `S` are folded into words `W`: `xor` and `zero` of the group, the word of one
      symbol, the step after each symbol, the word moved up by one symbol, and a short block of
      symbols packed into one word. */
  datatype Fold<!W, !S> = Fold(
    zero: W, xor: (W, W) -> W, word: S -> W, step: W -> W, up: W -> W, pack: seq<S> -> W)

  /** The register after `symbols`. */
  function Register<W, S>(f: Fold<W, S>, reg: W, symbols: seq<S>): W
    decreases |symbols|
  {
    if symbols == [] then reg else Register(f, f.step(f.xor(reg, f.word(symbols[0]))), symbols[1..])
  }

  ghost predicate Group<W(!new), S>(f: Fold<W, S>) {
    && (forall a, b, c :: f.xor(f.xor(a, b), c) == f.xor(a, f.xor(b, c)))
    && (forall a, b :: f.xor(a, b) == f.xor(b, a))
    && (forall a :: f.xor(a, f.zero) == a)
    && (forall a :: f.xor(a, a) == f.zero)
  }

  ghost predicate Linear<W(!new), S>(f: Fold<W, S>, step: W -> W) {
    forall a, b :: step(f.xor(a, b)) == f.xor(step(a), step(b))
  }

  ghost predicate Injective<W(!new)>(step: W -> W) {
    forall a, b :: step(a) == step(b) ==> a == b
  }

  /** Blocks of at most `width` symbols fit a word: moving a shorter block up and stepping brings it
      back, and different blocks of one length pack to different words. */
  ghost predicate Packs<W(!new), S(!new)>(f: Fold<W, S>, width: nat) {
    && f.pack([]) == f.zero
    && (forall s: seq<S> :: 0 < |s| <= width ==> f.pack(s) == f.xor(f.word(s[0]), f.up(f.pack(s[1..]))))
    && (forall s: seq<S> :: |s| < width ==> f.step(f.up(f.pack(s))) == f.pack(s))
    && (forall s: seq<S>, t: seq<S> :: |s| == |t| <= width && f.pack(s) == f.pack(t) ==> s == t)
  }

  lemma Cancel<W(!new), S>(f: Fold<W, S>, a: W, b: W, c: W)
    requires Group(f) && f.xor(a, c) == f.xor(b, c)
    ensures a == b
  {
    assert f.xor(f.xor(a, c), c) == a;
    assert f.xor(f.xor(b, c), c) == b;
  }

  lemma {:induction false} IterateLinear<W(!new), S>(f: Fold<W, S>, step: W -> W, a: W, b: W, n: nat)
    requires Linear(f, step)
    ensures Iterate(step, f.xor(a, b), n) == f.xor(Iterate(step, a, n), Iterate(step, b, n))
    decreases n
  {
    if n > 0 {
      IterateLinear(f, step, step(a), step(b), n - 1);
    }
  }

  lemma {:induction false} IterateInjective<W(!new)>(step: W -> W, a: W, b: W, n: nat)
    requires Injective(step) && Iterate(step, a, n) == Iterate(step, b, n)
    ensures a == b
    decreases n
  {
    if n > 0 {
      IterateInjective(step, step(a), step(b), n - 1);
    }
  }

  lemma {:induction false} IterateChain<W>(step: W -> W, chain: seq<W>)
    requires chain != [] && forall k :: 0 <= k < |chain| - 1 ==> step(chain[k]) == chain[k + 1]
    ensures Iterate(step, chain[0], |chain| - 1) == chain[|chain| - 1]
    decreases |chain|
  {
    if |chain| > 1 {
      assert step(chain[0]) == chain[1];
      IterateChain(step, chain[1..]);
    }
  }

  lemma {:induction false} RegisterAppend<W, S>(f: Fold<W, S>, reg: W, s: seq<S>, t: seq<S>)
    ensures Register(f, reg, s + t) == Register(f, Register(f, reg, s), t)
    decreases |s|
  {
    if s == [] {
      assert s + t == t;
    } else {
      RegisterAppend(f, f.step(f.xor(reg, f.word(s[0]))), s[1..], t);
      assert (s + t)[1..] == s[1..] + t;
    }
  }

  /** The remaining input preserves a difference in the register. */
  lemma {:induction false} RegisterInjective<W(!new), S>(f: Fold<W, S>, a: W, b: W, s: seq<S>)
    requires Group(f) && Injective(f.step) && Register(f, a, s) == Register(f, b, s)
    ensures a == b
    decreases |s|
  {
    if s != [] {
      var w := f.word(s[0]);
      RegisterInjective(f, f.step(f.xor(a, w)), f.step(f.xor(b, w)), s[1..]);
      assert f.xor(a, w) == f.xor(b, w);
      Cancel(f, a, b, w);
    }
  }

  /** A short block folds into one word: its symbols act as their packed word, followed by all the
      steps at once. */
  lemma {:induction false} BlockFolds<W(!new), S(!new)>(f: Fold<W, S>, width: nat, reg: W, s: seq<S>)
    requires Group(f) && Linear(f, f.step) && Packs(f, width) && |s| <= width
    ensures Register(f, reg, s) == Iterate(f.step, f.xor(reg, f.pack(s)), |s|)
    decreases |s|
  {
    if s == [] {
      assert f.xor(reg, f.zero) == reg;
    } else {
      var rest, w := s[1..], f.word(s[0]);
      var u := f.up(f.pack(rest));
      BlockFolds(f, width, f.step(f.xor(reg, w)), rest);
      assert f.step(u) == f.pack(rest);
      assert f.xor(f.step(f.xor(reg, w)), f.step(u)) == f.step(f.xor(f.xor(reg, w), u));
      assert f.xor(f.xor(reg, w), u) == f.xor(reg, f.xor(w, u)) == f.xor(reg, f.pack(s));
    }
  }

  lemma BlocksDiffer<W(!new), S(!new)>(f: Fold<W, S>, width: nat, reg: W, s: seq<S>, t: seq<S>)
    requires Group(f) && Linear(f, f.step) && Injective(f.step) && Packs(f, width) && |s| == |t| <= width
    ensures Register(f, reg, s) == Register(f, reg, t) ==> s == t
  {
    BlockFolds(f, width, reg, s);
    BlockFolds(f, width, reg, t);
    if Register(f, reg, s) == Register(f, reg, t) {
      IterateInjective(f.step, f.xor(reg, f.pack(s)), f.xor(reg, f.pack(t)), |s|);
      assert f.xor(f.pack(s), reg) == f.xor(reg, f.pack(s)) && f.xor(f.pack(t), reg) == f.xor(reg, f.pack(t));
      Cancel(f, f.pack(s), f.pack(t), reg);
    }
  }

  /** Inputs that agree outside a block of at most `width` symbols end in the same register exactly
      when they agree inside it too. */
  lemma BurstDetected<W(!new), S(!new)>(
    f: Fold<W, S>, width: nat, reg: W, before: seq<S>, s: seq<S>, t: seq<S>, after: seq<S>)
    requires Group(f) && Linear(f, f.step) && Injective(f.step) && Packs(f, width) && |s| == |t| <= width
    ensures Register(f, reg, before + s + after) == Register(f, reg, before + t + after) <==> s == t
  {
    var at := Register(f, reg, before);
    RegisterAppend(f, reg, before + s, after);
    RegisterAppend(f, reg, before, s);
    RegisterAppend(f, reg, before + t, after);
    RegisterAppend(f, reg, before, t);
    if Register(f, reg, before + s + after) == Register(f, reg, before + t + after) {
      RegisterInjective(f, Register(f, at, s), Register(f, at, t), after);
      BlocksDiffer(f, width, at, s, t);
    }
  }

  // ---- collisions are exactly the zero syndromes ----

  /** The register is linear in its start and its input together. */
  lemma {:induction false} RegisterLinear<W(!new), S(!new)>(
    f: Fold<W, S>, add: (S, S) -> S, a: W, b: W, s: seq<S>, t: seq<S>, sum: seq<S>)
    requires Group(f) && Linear(f, f.step) && |s| == |t| == |sum|
    requires forall x, y :: f.word(add(x, y)) == f.xor(f.word(x), f.word(y))
    requires forall i :: 0 <= i < |s| ==> sum[i] == add(s[i], t[i])
    ensures Register(f, f.xor(a, b), sum) == f.xor(Register(f, a, s), Register(f, b, t))
    decreases |s|
  {
    if s != [] {
      var x, y := f.word(s[0]), f.word(t[0]);
      Shuffle(f, a, b, x, y);
      assert sum[0] == add(s[0], t[0]);
      assert f.step(f.xor(f.xor(a, b), f.xor(x, y))) == f.xor(f.step(f.xor(a, x)), f.step(f.xor(b, y)));
      RegisterLinear(f, add, f.step(f.xor(a, x)), f.step(f.xor(b, y)), s[1..], t[1..], sum[1..]);
    }
  }

  lemma Shuffle<W(!new), S>(f: Fold<W, S>, a: W, b: W, x: W, y: W)
    requires Group(f)
    ensures f.xor(f.xor(a, b), f.xor(x, y)) == f.xor(f.xor(a, x), f.xor(b, y))
  {
    calc {
      f.xor(f.xor(a, b), f.xor(x, y));
      f.xor(a, f.xor(b, f.xor(x, y)));
      f.xor(a, f.xor(f.xor(b, x), y));
      f.xor(a, f.xor(f.xor(x, b), y));
      f.xor(a, f.xor(x, f.xor(b, y)));
      f.xor(f.xor(a, x), f.xor(b, y));
    }
  }

  /** The zero word tells equal words. */
  lemma ZeroDifference<W(!new), S>(f: Fold<W, S>, a: W, b: W)
    requires Group(f)
    ensures f.xor(a, b) == f.zero <==> a == b
  {
    if f.xor(a, b) == f.zero {
      assert f.xor(b, b) == f.zero;
      Cancel(f, a, b, b);
    }
  }

  /** The difference a prefix makes to the register. */
  function Offset<W, S>(f: Fold<W, S>, reg: W, head: seq<S>): W {
    if head == [] then f.zero else f.xor(Register(f, reg, head), reg)
  }

  /** Two inputs of any lengths collide exactly when the difference of their ends, run from the difference the longer
      one's head makes to the register, ends in zero. */
  lemma CollideIff<W(!new), S(!new)>(
    f: Fold<W, S>, add: (S, S) -> S, reg: W, head: seq<S>, s: seq<S>, t: seq<S>, sum: seq<S>)
    requires Group(f) && Linear(f, f.step) && |s| == |t| == |sum|
    requires forall x, y :: f.word(add(x, y)) == f.xor(f.word(x), f.word(y))
    requires forall i :: 0 <= i < |s| ==> sum[i] == add(s[i], t[i])
    ensures Register(f, reg, head + s) == Register(f, reg, t) <==> Register(f, Offset(f, reg, head), sum) == f.zero
  {
    RegisterAppend(f, reg, head, s);
    RegisterLinear(f, add, Register(f, reg, head), reg, s, t, sum);
    ZeroDifference(f, Register(f, reg, head + s), Register(f, reg, t));
  }
}
