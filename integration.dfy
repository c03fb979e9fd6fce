/** The composite trapezoidal rule behind the Gamma, t, F and chi-square cdfs.

    Each of those cdfs walks `steps` panels of width `h` from a left end `a`, and adds
    `(pdf(x1) + pdf(x2)) * h / 2` for the panel `[x1, x2]` to a running `sum`. The sum is a
    JS number: a node where the pdf is infinite makes it infinite, and a negative `h`
    (integrating to the left of `a`) makes every panel count negatively. */
module Integration {
  import opened Numbers
  import opened Sums

  /** The i-th node `a + i h`. */
  function Node(a: real, h: real, i: int): real
  {
    a + (i as real) * h
  }

  /** The contribution `(f(x1) + f(x2)) * h / 2` of the panel that ends at node i. */
  function Panel(f: real -> Num, a: real, h: real, i: int): Num
  {
    Div(Mul(Add(f(Node(a, h, i - 1)), f(Node(a, h, i))), Fin(h)), Fin(2.0))
  }

  /** The running sum after the first n panels, accumulated left to right. */
  function TrapezoidSum(f: real -> Num, a: real, h: real, n: nat): Num
  {
    if n == 0 then Fin(0.0) else Add(TrapezoidSum(f, a, h, n - 1), Panel(f, a, h, n))
  }

  /** The accumulation loop shared by the numerically integrated cdfs. */
  method Trapezoid(f: real -> Num, a: real, h: real, steps: nat) returns (sum: Num)
    ensures sum == TrapezoidSum(f, a, h, steps)
  {
    sum := Fin(0.0);
    var i := 0;
    while i < steps
      invariant 0 <= i <= steps
      invariant sum == TrapezoidSum(f, a, h, i)
    {
      var x1 := a + (i as real) * h;
      var x2 := a + ((i + 1) as real) * h;
      sum := Add(sum, Div(Mul(Add(f(x1), f(x2)), Fin(h)), Fin(2.0)));
      i := i + 1;
    }
  }

  /** The finite value of a number, 0 for the non-finite ones. */
  function ValueOf(a: Num): real
  {
    if a.Fin? then a.v else 0.0
  }

  /** The values of f at the nodes. */
  function NodeValues(f: real -> Num, a: real, h: real): int -> real
  {
    i => ValueOf(f(Node(a, h, i)))
  }

  /** Two integrands that agree at the nodes 0..n give the same computed rule. */
  lemma {:induction false} TrapezoidCongruent(f: real -> Num, g: real -> Num, a: real, h: real, n: nat)
    requires forall i {:trigger Node(a, h, i)} :: 0 <= i <= n ==> f(Node(a, h, i)) == g(Node(a, h, i))
    ensures TrapezoidSum(f, a, h, n) == TrapezoidSum(g, a, h, n)
  {
    if n > 0 {
      TrapezoidCongruent(f, g, a, h, n - 1);
      assert f(Node(a, h, n - 1)) == g(Node(a, h, n - 1)) && f(Node(a, h, n)) == g(Node(a, h, n));
    }
  }

  /** f is finite at the nodes 0..n. */
  ghost predicate FiniteAtNodes(f: real -> Num, a: real, h: real, n: nat)
  {
    forall i {:trigger Node(a, h, i)} :: 0 <= i <= n ==> f(Node(a, h, i)).Fin?
  }

  /** f is finite and non-negative at the nodes 0..n. */
  ghost predicate NonnegativeAtNodes(f: real -> Num, a: real, h: real, n: nat)
  {
    forall i {:trigger Node(a, h, i)} :: 0 <= i <= n ==> f(Node(a, h, i)).Fin? && f(Node(a, h, i)).v >= 0.0
  }

  /** The rule in exact arithmetic over the node values `v`. */
  function RealTrapezoid(v: int -> real, h: real, n: nat): real
  {
    if n == 0 then 0.0 else RealTrapezoid(v, h, n - 1) + (v(n - 1) + v(n)) * h / 2.0
  }

  /** A panel between two finite values is finite. */
  lemma {:induction false} FinitePanel(f: real -> Num, a: real, h: real, i: int)
    requires f(Node(a, h, i - 1)).Fin? && f(Node(a, h, i)).Fin?
    ensures Panel(f, a, h, i) == Fin((NodeValues(f, a, h)(i - 1) + NodeValues(f, a, h)(i)) * h / 2.0)
  {
  }

  /** The sum of two finite numbers. */
  lemma {:induction false} AddFinite(x: Num, y: Num)
    requires x.Fin? && y.Fin?
    ensures Add(x, y) == Fin(x.v + y.v)
  {
  }

  /** Where f is finite at every node, the JS sum is the exact rule over the node values. */
  lemma {:induction false} TrapezoidFinite(f: real -> Num, a: real, h: real, n: nat)
    requires FiniteAtNodes(f, a, h, n)
    ensures TrapezoidSum(f, a, h, n) == Fin(RealTrapezoid(NodeValues(f, a, h), h, n))
  {
    if n > 0 {
      var prev := TrapezoidSum(f, a, h, n - 1);
      assert prev == Fin(RealTrapezoid(NodeValues(f, a, h), h, n - 1)) by {
        assert FiniteAtNodes(f, a, h, n - 1);
        TrapezoidFinite(f, a, h, n - 1);
      }
      var panel := Panel(f, a, h, n);
      assert panel == Fin((NodeValues(f, a, h)(n - 1) + NodeValues(f, a, h)(n)) * h / 2.0) by {
        assert f(Node(a, h, n - 1)).Fin? && f(Node(a, h, n)).Fin?;
        FinitePanel(f, a, h, n);
      }
      AddFinite(prev, panel);
    }
  }

  lemma {:induction false} PanelArithmetic(t: real, s: real, s': real, u: real, w: real, z: real, h: real)
    requires t == h * (s - (z + u) / 2.0) && s' == s + w
    ensures t + (u + w) * h / 2.0 == h * (s' - (z + w) / 2.0)
  {
  }

  /** Every interior node counts fully and the two end nodes count half:
      the rule is `h (v_0 + ... + v_n - (v_0 + v_n) / 2)`. */
  lemma {:induction false} RealTrapezoidClosedForm(v: int -> real, h: real, n: nat)
    ensures RealTrapezoid(v, h, n) == h * (Sum(v, 0, n + 1) - (v(0) + v(n)) / 2.0)
  {
    if n > 0 {
      RealTrapezoidClosedForm(v, h, n - 1);
      SumLast(v, 0, n);
      PanelArithmetic(RealTrapezoid(v, h, n - 1), Sum(v, 0, n), Sum(v, 0, n + 1), v(n - 1), v(n), v(0), h);
    }
  }

  /** With finite node values `v_0..v_n`, the computed rule is `h (v_0 + ... + v_n - (v_0 + v_n) / 2)`. */
  lemma {:induction false} TrapezoidClosedForm(f: real -> Num, a: real, h: real, n: nat)
    requires FiniteAtNodes(f, a, h, n)
    ensures TrapezoidSum(f, a, h, n)
         == Fin(h * (Sum(NodeValues(f, a, h), 0, n + 1) - (NodeValues(f, a, h)(0) + NodeValues(f, a, h)(n)) / 2.0))
  {
    TrapezoidFinite(f, a, h, n);
    RealTrapezoidClosedForm(NodeValues(f, a, h), h, n);
  }

  /** The node values 0..n are non-negative. */
  ghost predicate NonnegativeValues(v: int -> real, n: nat)
  {
    forall i {:trigger v(i)} :: 0 <= i <= n ==> v(i) >= 0.0
  }

  lemma {:induction false} HalfProductSign(u: real, h: real)
    ensures u >= 0.0 && h >= 0.0 ==> u * h / 2.0 >= 0.0
    ensures u >= 0.0 && h < 0.0 ==> u * h / 2.0 <= 0.0
    ensures u > 0.0 && h < 0.0 ==> u * h / 2.0 < 0.0
  {
  }

  /** Over non-negative values the exact rule has the sign of the step, strictly when the
      left end is positive and the step negative. */
  lemma {:induction false} RealTrapezoidSign(v: int -> real, h: real, n: nat)
    requires NonnegativeValues(v, n)
    ensures h >= 0.0 ==> RealTrapezoid(v, h, n) >= 0.0
    ensures h < 0.0 ==> RealTrapezoid(v, h, n) <= 0.0
    ensures h < 0.0 && n >= 1 && v(0) > 0.0 ==> RealTrapezoid(v, h, n) < 0.0
  {
    if n > 0 {
      var prev := RealTrapezoid(v, h, n - 1);
      var panel := (v(n - 1) + v(n)) * h / 2.0;
      assert RealTrapezoid(v, h, n) == prev + panel;
      assert (h >= 0.0 ==> prev >= 0.0) && (h < 0.0 ==> prev <= 0.0)
          && (h < 0.0 && n >= 2 && v(0) > 0.0 ==> prev < 0.0) by {
        assert NonnegativeValues(v, n - 1);
        RealTrapezoidSign(v, h, n - 1);
      }
      assert (h >= 0.0 ==> panel >= 0.0) && (h < 0.0 ==> panel <= 0.0)
          && (h < 0.0 && n == 1 && v(0) > 0.0 ==> panel < 0.0) by {
        assert v(n - 1) >= 0.0 && v(n) >= 0.0;
        HalfProductSign(v(n - 1) + v(n), h);
      }
    }
  }

  lemma {:induction false} NonnegativeNodeValues(f: real -> Num, a: real, h: real, n: nat)
    requires NonnegativeAtNodes(f, a, h, n)
    ensures FiniteAtNodes(f, a, h, n)
    ensures NonnegativeValues(NodeValues(f, a, h), n)
  {
    forall i | 0 <= i <= n
      ensures NodeValues(f, a, h)(i) >= 0.0
    {
      assert f(Node(a, h, i)).Fin? && f(Node(a, h, i)).v >= 0.0;
    }
  }

  /** A rule over non-negative node values with a non-negative step is finite and
      non-negative. */
  lemma {:induction false} TrapezoidNonnegative(f: real -> Num, a: real, h: real, n: nat)
    requires h >= 0.0
    requires NonnegativeAtNodes(f, a, h, n)
    ensures TrapezoidSum(f, a, h, n).Fin? && TrapezoidSum(f, a, h, n).v >= 0.0
  {
    NonnegativeNodeValues(f, a, h, n);
    TrapezoidFinite(f, a, h, n);
    RealTrapezoidSign(NodeValues(f, a, h), h, n);
  }

  /** With a negative step, non-negative node values and a positive value at the left end,
      the rule is negative. */
  lemma {:induction false} TrapezoidNegative(f: real -> Num, a: real, h: real, n: nat)
    requires h < 0.0 && n >= 1
    requires NonnegativeAtNodes(f, a, h, n)
    requires f(Node(a, h, 0)).v > 0.0
    ensures TrapezoidSum(f, a, h, n).Fin? && TrapezoidSum(f, a, h, n).v < 0.0
  {
    NonnegativeNodeValues(f, a, h, n);
    TrapezoidFinite(f, a, h, n);
    assert NodeValues(f, a, h)(0) > 0.0 by {
      assert f(Node(a, h, 0)).Fin?;
    }
    RealTrapezoidSign(NodeValues(f, a, h), h, n);
  }

  /** f is finite at the nodes 1..n. */
  ghost predicate FiniteAfterFirstNode(f: real -> Num, a: real, h: real, n: nat)
  {
    forall i {:trigger Node(a, h, i)} :: 1 <= i <= n ==> f(Node(a, h, i)).Fin?
  }

  /** f is finite and non-negative at the nodes 1..n. */
  ghost predicate NonnegativeAfterFirstNode(f: real -> Num, a: real, h: real, n: nat)
  {
    forall i {:trigger Node(a, h, i)} :: 1 <= i <= n ==> f(Node(a, h, i)).Fin? && f(Node(a, h, i)).v >= 0.0
  }

  /** The nodes after the first together with the first. */
  lemma {:induction false} NonnegativeWithFirstNode(f: real -> Num, a: real, h: real, n: nat)
    requires f(Node(a, h, 0)).Fin? && f(Node(a, h, 0)).v >= 0.0
    requires NonnegativeAfterFirstNode(f, a, h, n)
    ensures NonnegativeAtNodes(f, a, h, n)
  {
    forall i | 0 <= i <= n
      ensures f(Node(a, h, i)).Fin? && f(Node(a, h, i)).v >= 0.0
    {
      if i == 0 {
        assert Node(a, h, i) == Node(a, h, 0);
      }
    }
  }

  /** An infinite value at the left end and finite values at every other node make the
      whole rule infinite, with the sign of the step. */
  lemma {:induction false} TrapezoidInfinite(f: real -> Num, a: real, h: real, n: nat)
    requires n >= 1 && h != 0.0
    requires f(Node(a, h, 0)) == PosInf
    requires FiniteAfterFirstNode(f, a, h, n)
    ensures h > 0.0 ==> TrapezoidSum(f, a, h, n) == PosInf
    ensures h < 0.0 ==> TrapezoidSum(f, a, h, n) == NegInf
  {
    assert f(Node(a, h, n)).Fin?;
    if n > 1 {
      assert f(Node(a, h, n - 1)).Fin?;
      TrapezoidInfinite(f, a, h, n - 1);
    }
  }

  /** The rule over `[0, x]` in n panels, from a node 0 where f is +Infinity and finite
      values elsewhere: +Infinity for x > 0 and -Infinity for x < 0. */
  lemma {:induction false} RuleFromSingularOrigin(f: real -> Num, x: real, n: nat)
    requires n >= 1 && x != 0.0 && f(0.0) == PosInf
    requires FiniteAfterFirstNode(f, 0.0, x / n as real, n)
    ensures x > 0.0 ==> TrapezoidSum(f, 0.0, x / n as real, n) == PosInf
    ensures x < 0.0 ==> TrapezoidSum(f, 0.0, x / n as real, n) == NegInf
  {
    assert Node(0.0, x / n as real, 0) == 0.0;
    TrapezoidInfinite(f, 0.0, x / n as real, n);
  }

  /** The rule over `[0, x]` in n panels with x < 0, from a node 0 where f is positive and
      non-negative values elsewhere: a negative number. */
  lemma {:induction false} RuleFromPositiveOrigin(f: real -> Num, x: real, n: nat)
    requires n >= 1 && x < 0.0 && f(0.0).Fin? && f(0.0).v > 0.0
    requires NonnegativeAfterFirstNode(f, 0.0, x / n as real, n)
    ensures TrapezoidSum(f, 0.0, x / n as real, n).Fin? && TrapezoidSum(f, 0.0, x / n as real, n).v < 0.0
  {
    assert Node(0.0, x / n as real, 0) == 0.0;
    NonnegativeWithFirstNode(f, 0.0, x / n as real, n);
    TrapezoidNegative(f, 0.0, x / n as real, n);
  }
}
