/**
 * Registers that absorb one word at a time through a step that is linear over an exclusive or.
 *
 * The laws below hold of every such register; Crc32 instantiates them.
 */
module LinearRegister {

  datatype Register<!S> = Register(step: S -> S, xor: (S, S) -> S)

  function Iterate<S>(step: S -> S, x: S, n: nat): S
    decreases n
  {
    if n == 0 then x else Iterate(step, step(x), n - 1)
  }

  function Absorb<S>(m: Register<S>, x: S, w: S): S {
    m.step(m.xor(x, w))
  }

  function Run<S>(m: Register<S>, x: S, ws: seq<S>): S
    decreases ws
  {
    if ws == [] then x else Run(m, Absorb(m, x, ws[0]), ws[1..])
  }

  function Difference<S>(m: Register<S>, xs: seq<S>, ys: seq<S>): (zs: seq<S>)
    requires |xs| == |ys|
    ensures |zs| == |xs|
  {
    seq(|xs|, i requires 0 <= i < |xs| => m.xor(xs[i], ys[i]))
  }

  ghost predicate LinearStep<S(!new)>(step: S -> S, xor: (S, S) -> S) {
    forall x, y :: step(xor(x, y)) == xor(step(x), step(y))
  }

  ghost predicate Commutative<S(!new)>(xor: (S, S) -> S) {
    forall x, y :: xor(x, y) == xor(y, x)
  }

  ghost predicate Associative<S(!new)>(xor: (S, S) -> S) {
    forall x, y, z :: xor(xor(x, y), z) == xor(x, xor(y, z))
  }

  ghost predicate Linear<S(!new)>(m: Register<S>) {
    LinearStep(m.step, m.xor) && Commutative(m.xor) && Associative(m.xor)
  }

  lemma {:induction false} IterateLinear<S(!new)>(step: S -> S, xor: (S, S) -> S, x: S, y: S, n: nat)
    requires LinearStep(step, xor)
    ensures Iterate(step, xor(x, y), n) == xor(Iterate(step, x, n), Iterate(step, y, n))
    decreases n
  {
    if n > 0 {
      IterateLinear(step, xor, step(x), step(y), n - 1);
    }
  }

  lemma {:induction false} IterateSplit<S>(step: S -> S, x: S, m: nat, n: nat)
    ensures Iterate(step, x, m + n) == Iterate(step, Iterate(step, x, m), n)
    decreases m
  {
    if m > 0 {
      IterateSplit(step, step(x), m - 1, n);
    }
  }

  lemma AbsorbLinear<S(!new)>(m: Register<S>, x: S, y: S, p: S, q: S)
    requires Linear(m)
    ensures m.xor(Absorb(m, x, p), Absorb(m, y, q)) == Absorb(m, m.xor(x, y), m.xor(p, q))
  {
    calc {
      m.xor(m.xor(x, p), m.xor(y, q));
      m.xor(x, m.xor(p, m.xor(y, q)));
      m.xor(x, m.xor(m.xor(p, y), q));
      m.xor(x, m.xor(m.xor(y, p), q));
      m.xor(x, m.xor(y, m.xor(p, q)));
      m.xor(m.xor(x, y), m.xor(p, q));
    }
  }

  /** Two runs differ by the run over their differences. */
  lemma {:induction false} RunLinear<S(!new)>(m: Register<S>, x: S, y: S, xs: seq<S>, ys: seq<S>)
    requires Linear(m) && |xs| == |ys|
    ensures m.xor(Run(m, x, xs), Run(m, y, ys)) == Run(m, m.xor(x, y), Difference(m, xs, ys))
    decreases xs
  {
    if xs != [] {
      RunLinear(m, Absorb(m, x, xs[0]), Absorb(m, y, ys[0]), xs[1..], ys[1..]);
      assert Difference(m, xs, ys)[1..] == Difference(m, xs[1..], ys[1..]);
      AbsorbLinear(m, x, y, xs[0], ys[0]);
    }
  }

  lemma {:induction false} RunConcat<S>(m: Register<S>, x: S, xs: seq<S>, ys: seq<S>)
    ensures Run(m, x, xs + ys) == Run(m, Run(m, x, xs), ys)
    decreases xs
  {
    if xs == [] {
      assert xs + ys == ys;
    } else {
      RunConcat(m, Absorb(m, x, xs[0]), xs[1..], ys);
      assert (xs + ys)[1..] == xs[1..] + ys;
    }
  }

  lemma RunTwo<S>(m: Register<S>, x: S, w0: S, w1: S)
    ensures Run(m, x, [w0]) == Absorb(m, x, w0)
    ensures Run(m, x, [w0, w1]) == Absorb(m, Absorb(m, x, w0), w1)
  {
    var y := Absorb(m, x, w0);
    assert [w0, w1][1..] == [w1] && Run(m, y, [w1]) == Run(m, Absorb(m, y, w1), []);
    assert Run(m, x, [w0]) == Run(m, y, []);
  }

  lemma RunFour<S>(m: Register<S>, x: S, w0: S, w1: S, w2: S, w3: S)
    ensures Run(m, x, [w0, w1, w2, w3]) == Absorb(m, Absorb(m, Absorb(m, Absorb(m, x, w0), w1), w2), w3)
  {
    var y := Absorb(m, Absorb(m, x, w0), w1);
    RunTwo(m, x, w0, w1);
    RunTwo(m, y, w2, w3);
    RunConcat(m, x, [w0, w1], [w2, w3]);
    assert [w0, w1] + [w2, w3] == [w0, w1, w2, w3];
  }
}
