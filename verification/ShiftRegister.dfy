/** Checksum registers over any word type: words are added into a register that then
    turns eight times. Nothing here looks inside a word. */
module ShiftRegister {
  /** `step` is one turn of the register, `add` mixes in a word. */
  datatype Machine<!W> = Machine(step: W -> W, add: (W, W) -> W)

  function Turn<W>(m: Machine<W>, n: nat, c: W): W
    decreases n
  {
    if n == 0 then c else m.step(Turn(m, n - 1, c))
  }

  function Feed<W>(m: Machine<W>, c: W, w: W): W { Turn(m, 8, m.add(c, w)) }

  function Register<W>(m: Machine<W>, c: W, words: seq<W>): W
    decreases |words|
  {
    if words == [] then c else Feed(m, Register(m, c, words[..|words| - 1]), words[|words| - 1])
  }

  function Sum<W>(m: Machine<W>, x: seq<W>, y: seq<W>): (z: seq<W>)
    requires |x| == |y|
    ensures |z| == |x|
  {
    seq(|x|, i requires 0 <= i < |x| => m.add(x[i], y[i]))
  }

  predicate StepAdds<W(==)>(m: Machine<W>, a: W, b: W) {
    m.step(m.add(a, b)) == m.add(m.step(a), m.step(b))
  }

  predicate AddRegroups<W(==)>(m: Machine<W>, a: W, b: W, c: W, d: W) {
    m.add(m.add(a, b), m.add(c, d)) == m.add(m.add(a, c), m.add(b, d))
  }

  ghost predicate Linear<W(!new)>(m: Machine<W>) {
    && (forall a, b :: StepAdds(m, a, b))
    && (forall a, b, c, d :: AddRegroups(m, a, b, c, d))
  }

  ghost predicate Injective<W(!new)>(m: Machine<W>) {
    && (forall a, b :: m.step(a) == m.step(b) ==> a == b)
    && (forall a, b, w :: m.add(a, w) == m.add(b, w) ==> a == b)
    && (forall a, v, w :: m.add(a, v) == m.add(a, w) ==> v == w)
  }

  lemma {:induction false} TurnLinear<W(!new)>(m: Machine<W>, n: nat, a: W, b: W)
    requires Linear(m)
    ensures Turn(m, n, m.add(a, b)) == m.add(Turn(m, n, a), Turn(m, n, b))
    decreases n
  {
    if n > 0 {
      TurnLinear(m, n - 1, a, b);
      assert StepAdds(m, Turn(m, n - 1, a), Turn(m, n - 1, b));
    }
  }

  lemma {:induction false} TurnInjective<W(!new)>(m: Machine<W>, n: nat, a: W, b: W)
    requires Injective(m) && Turn(m, n, a) == Turn(m, n, b)
    ensures a == b
    decreases n
  {
    if n > 0 {
      TurnInjective(m, n - 1, a, b);
    }
  }

  lemma TurnOnce<W>(m: Machine<W>, c: W)
    ensures Turn(m, 1, c) == m.step(c)
  {
    assert Turn(m, 0, c) == c;
  }

  lemma {:induction false} TurnTwice<W>(m: Machine<W>, k: nat, n: nat, c: W)
    ensures Turn(m, k + n, c) == Turn(m, n, Turn(m, k, c))
    decreases n
  {
    if n > 0 {
      TurnTwice(m, k, n - 1, c);
    }
  }

  /** A path that the register walks back, one turn for every place. */
  lemma {:induction false} TurnBack<W(!new)>(m: Machine<W>, path: nat -> W, n: nat)
    requires forall k: nat :: k < n ==> m.step(path(k + 1)) == path(k)
    ensures Turn(m, n, path(n)) == path(0)
    decreases n
  {
    if n > 0 {
      TurnBack(m, path, n - 1);
      TurnTwice(m, 1, n - 1, path(n));
      TurnOnce(m, path(n));
    }
  }

  lemma EightBack<W(!new)>(m: Machine<W>, path: nat -> W)
    requires m.step(path(1)) == path(0) && m.step(path(2)) == path(1) && m.step(path(3)) == path(2)
    requires m.step(path(4)) == path(3) && m.step(path(5)) == path(4) && m.step(path(6)) == path(5)
    requires m.step(path(7)) == path(6) && m.step(path(8)) == path(7)
    ensures Turn(m, 8, path(8)) == path(0)
  {
    TurnBack(m, path, 8);
  }

  lemma {:induction false} BytesBack<W(!new)>(m: Machine<W>, path: nat -> W, n: nat)
    requires forall k: nat :: k < n ==> Turn(m, 8, path(k + 1)) == path(k)
    ensures Turn(m, 8 * n, path(n)) == path(0)
    decreases n
  {
    if n > 0 {
      BytesBack(m, path, n - 1);
      TurnTwice(m, 8, 8 * (n - 1), path(n));
    }
  }

  lemma {:induction false} RegisterLinear<W(!new)>(m: Machine<W>, c: W, d: W, x: seq<W>, y: seq<W>)
    requires Linear(m) && |x| == |y|
    ensures Register(m, m.add(c, d), Sum(m, x, y)) == m.add(Register(m, c, x), Register(m, d, y))
    decreases |x|
  {
    if x != [] {
      var n := |x| - 1;
      assert Sum(m, x, y)[..n] == Sum(m, x[..n], y[..n]);
      RegisterLinear(m, c, d, x[..n], y[..n]);
      var r, s := Register(m, c, x[..n]), Register(m, d, y[..n]);
      assert AddRegroups(m, r, s, x[n], y[n]);
      TurnLinear(m, 8, m.add(r, x[n]), m.add(s, y[n]));
    }
  }

  /** Three texts of one length at once. */
  lemma RegisterOfThree<W(!new)>(m: Machine<W>, c: W, x: seq<W>, y: seq<W>, z: seq<W>)
    requires Linear(m) && |x| == |y| == |z|
    ensures Register(m, m.add(m.add(c, c), c), Sum(m, Sum(m, x, y), z)) ==
            m.add(m.add(Register(m, c, x), Register(m, c, y)), Register(m, c, z))
  {
    RegisterLinear(m, c, c, x, y);
    RegisterLinear(m, m.add(c, c), c, Sum(m, x, y), z);
  }

  lemma FeedInjective<W(!new)>(m: Machine<W>, c: W, d: W, v: W, w: W)
    requires Injective(m)
    ensures Feed(m, c, w) == Feed(m, d, w) ==> c == d
    ensures Feed(m, c, v) == Feed(m, c, w) ==> v == w
  {
    if Feed(m, c, w) == Feed(m, d, w) {
      TurnInjective(m, 8, m.add(c, w), m.add(d, w));
    }
    if Feed(m, c, v) == Feed(m, c, w) {
      TurnInjective(m, 8, m.add(c, v), m.add(c, w));
    }
  }

  // The register `n` turns earlier, given a way back over one turn.
  function Before<W>(back: W -> W, n: nat, d: W): W
    decreases n
  {
    if n == 0 then d else Before(back, n - 1, back(d))
  }

  lemma {:induction false} TurnOnto<W(!new)>(m: Machine<W>, back: W -> W, n: nat, d: W)
    requires forall w :: m.step(back(w)) == w
    ensures Turn(m, n, Before(back, n, d)) == d
    decreases n
  {
    if n > 0 {
      TurnOnto(m, back, n - 1, back(d));
    }
  }

  lemma {:induction false} RegisterInjective<W(!new)>(m: Machine<W>, c: W, d: W, words: seq<W>)
    requires Injective(m) && Register(m, c, words) == Register(m, d, words)
    ensures c == d
    decreases |words|
  {
    if words != [] {
      var n := |words| - 1;
      FeedInjective(m, Register(m, c, words[..n]), Register(m, d, words[..n]), words[n], words[n]);
      RegisterInjective(m, c, d, words[..n]);
    }
  }

  lemma {:induction false} RegisterOfConcat<W>(m: Machine<W>, c: W, x: seq<W>, y: seq<W>)
    ensures Register(m, c, x + y) == Register(m, Register(m, c, x), y)
    decreases |y|
  {
    if y == [] {
      assert x + y == x;
    } else {
      assert (x + y)[..|x + y| - 1] == x + y[..|y| - 1];
      RegisterOfConcat(m, c, x, y[..|y| - 1]);
    }
  }

  function AddAll<W>(m: Machine<W>, c: W, words: seq<W>): W {
    if words == [] then c else m.add(AddAll(m, c, words[..|words| - 1]), words[|words| - 1])
  }

  /** `lifted` are the words moved back to before the first turn: adding them all at once
      and then turning is the same as feeding the words one by one. */
  ghost predicate Lifts<W>(m: Machine<W>, lifted: seq<W>, words: seq<W>) {
    |lifted| == |words| && forall i :: 0 <= i < |words| ==> Turn(m, 8 * i, lifted[i]) == words[i]
  }

  lemma {:induction false} FeedAllAtOnce<W(!new)>(m: Machine<W>, c: W, lifted: seq<W>, words: seq<W>)
    requires Linear(m) && Lifts(m, lifted, words)
    ensures Register(m, c, words) == Turn(m, 8 * |words|, AddAll(m, c, lifted))
    decreases |words|
  {
    if words != [] {
      var n := |words| - 1;
      FeedAllAtOnce(m, c, lifted[..n], words[..n]);
      var sum := AddAll(m, c, lifted[..n]);
      TurnLinear(m, 8 * n, sum, lifted[n]);
      TurnTwice(m, 8 * n, 8, m.add(sum, lifted[n]));
    }
  }
}
