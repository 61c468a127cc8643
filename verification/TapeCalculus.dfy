/**
Sums on a tape, and what the forward tangent means: it is the derivative of the value
the tape computes.
*/
module TapeCalculus {
  import opened Derivatives
  import opened Tape

  // ----- sums in order -----

  /** The values of some nodes, added from the left, starting at zero. */
  ghost function SumOf(nodes: seq<Node>, ids: seq<nat>, n: nat): real
    requires n <= |ids| && forall i :: 0 <= i < |ids| ==> ids[i] < |nodes|
  {
    if n == 0 then 0.0 else SumOf(nodes, ids, n - 1) + nodes[ids[n - 1]].value
  }

  ghost function TangentSum(f: Elementary, nodes: seq<Node>, tau: nat -> real, ids: seq<nat>, n: nat): real
    requires Ordered(nodes) && n <= |ids| && forall i :: 0 <= i < |ids| ==> ids[i] < |nodes|
  {
    if n == 0 then 0.0 else TangentSum(f, nodes, tau, ids, n - 1) + Tangent(f, nodes, tau, ids[n - 1])
  }

  /** A chain of additions on top of a tape: node base is zero, and each later node adds
      the next operand to the one before it. */
  ghost predicate SumChain(before: seq<Node>, after: seq<Node>, ids: seq<nat>, n: nat) {
    && |after| == |before| + n + 1 && after[..|before|] == before
    && after[|before|] == Node(0.0, 0.0, Constant)
    && n <= |ids| && (forall i :: 0 <= i < |ids| ==> ids[i] < |before|)
    && forall i :: 0 <= i < n ==>
         after[|before| + i + 1]
         == Node(after[|before| + i].value + before[ids[i]].value, 0.0, Add(|before| + i, ids[i]))
  }

  /** Pushes zero and then one addition for each operand. */
  method SumInOrder(tape: Tape, ids: seq<nat>) returns (sum: nat)
    requires tape.Valid() && forall i :: 0 <= i < |ids| ==> ids[i] < |tape.nodes|
    modifies tape`nodes
    ensures tape.Valid() && SumChain(old(tape.nodes), tape.nodes, ids, |ids|)
    ensures sum == |old(tape.nodes)| + |ids|
  {
    ghost var before := tape.nodes;
    sum := tape.PushConstant(0.0);
    var i := 0;
    while i < |ids|
      invariant i <= |ids| && tape.Valid() && SumChain(before, tape.nodes, ids, i) && sum == |before| + i
    {
      sum := tape.PushAdd(sum, ids[i]);
      i := i + 1;
    }
  }

  lemma {:induction false} ChainValue(before: seq<Node>, after: seq<Node>, ids: seq<nat>, n: nat, m: nat)
    requires SumChain(before, after, ids, n) && m <= n
    ensures after[|before| + m].value == SumOf(before, ids, m)
    decreases m
  {
    if m > 0 {
      ChainValue(before, after, ids, n, m - 1);
      assert after[|before| + (m - 1) + 1].operation == Add(|before| + (m - 1), ids[m - 1]);
    }
  }

  lemma {:induction false} PrefixTangent(f: Elementary, before: seq<Node>, after: seq<Node>, tau: nat -> real, id: nat)
    requires Ordered(before) && Ordered(after) && before <= after && id < |before|
    ensures Tangent(f, after, tau, id) == Tangent(f, before, tau, id)
    decreases id
  {
    var op := before[id].operation;
    assert after[id] == before[id] && op.Below(id);
    if !op.Leaf() {
      assert after[op.First()] == before[op.First()];
      PrefixTangent(f, before, after, tau, op.First());
      if op.Binary() {
        assert after[op.Second()] == before[op.Second()];
        PrefixTangent(f, before, after, tau, op.Second());
      }
    }
  }

  /** A pushed sum has the operands' sum as its value and the sum of their tangents as
      its tangent. */
  lemma {:induction false} SumTangent(f: Elementary, before: seq<Node>, after: seq<Node>, tau: nat -> real,
      ids: seq<nat>, n: nat, m: nat)
    requires Ordered(before) && Ordered(after) && SumChain(before, after, ids, n) && m <= n
    ensures after[|before| + m].value == SumOf(before, ids, m)
    ensures Tangent(f, after, tau, |before| + m) == TangentSum(f, before, tau, ids, m)
    decreases m
  {
    ChainValue(before, after, ids, n, m);
    if m > 0 {
      SumTangent(f, before, after, tau, ids, n, m - 1);
      assert after[|before| + (m - 1) + 1].operation == Add(|before| + (m - 1), ids[m - 1]);
      PrefixTangent(f, before, after, tau, ids[m - 1]);
    }
  }

  // ----- the tangent is the derivative -----

  /** Each value is what its operation gives. */
  ghost predicate ComputedAt(f: Elementary, nodes: seq<Node>, id: nat)
    requires Ordered(nodes) && id < |nodes|
  {
    assert nodes[id].operation.Below(id);
    match nodes[id].operation
    case Constant => true
    case Parameter => true
    case Add(l, r) => nodes[id].value == nodes[l].value + nodes[r].value
    case Mul(l, r) => nodes[id].value == Times(nodes[l].value, nodes[r].value)
    case Div(n, d) => nodes[id].value == Quotient(nodes[n].value, nodes[d].value)
    case Sqrt(x) => nodes[id].value == f.sqrt(nodes[x].value)
    case Exp(x) => nodes[id].value == f.exp(nodes[x].value)
    case Ln(x) => nodes[id].value == f.ln(nodes[x].value)
    case Sin(x) => nodes[id].value == f.sin(nodes[x].value)
    case Cos(x) => nodes[id].value == f.cos(nodes[x].value)
    case Neg(x) => nodes[id].value == -nodes[x].value
    case Bf16(x) => nodes[id].value == f.round(nodes[x].value)
  }

  /** No division by zero, no cast, and elementary functions with their textbook
      derivatives at the values they are applied to. */
  ghost predicate SmoothAt(f: Elementary, nodes: seq<Node>, id: nat)
    requires Ordered(nodes) && id < |nodes|
  {
    assert nodes[id].operation.Below(id);
    match nodes[id].operation
    case Div(n, d) => nodes[d].value != 0.0
    case Sqrt(x) => Derives(f.sqrt, nodes[x].value, Quotient(1.0, Times(2.0, f.sqrt(nodes[x].value))))
    case Exp(x) => Derives(f.exp, nodes[x].value, f.exp(nodes[x].value))
    case Ln(x) => Derives(f.ln, nodes[x].value, Quotient(1.0, nodes[x].value))
    case Sin(x) => Derives(f.sin, nodes[x].value, f.cos(nodes[x].value))
    case Cos(x) => Derives(f.cos, nodes[x].value, -f.sin(nodes[x].value))
    case Bf16(x) => false
    case _ => true
  }

  ghost predicate Smooth(f: Elementary, nodes: seq<Node>) {
    Ordered(nodes) && forall id :: 0 <= id < |nodes| ==> ComputedAt(f, nodes, id) && SmoothAt(f, nodes, id)
  }

  /** The value of a node when every parameter p is moved by h times tau(p). */
  ghost function Moved(f: Elementary, nodes: seq<Node>, tau: nat -> real, h: real, id: nat): real
    requires Ordered(nodes) && id < |nodes|
    decreases id
  {
    assert nodes[id].operation.Below(id);
    match nodes[id].operation
    case Constant => nodes[id].value
    case Parameter => nodes[id].value + h * tau(id)
    case Add(l, r) => Moved(f, nodes, tau, h, l) + Moved(f, nodes, tau, h, r)
    case Mul(l, r) => Times(Moved(f, nodes, tau, h, l), Moved(f, nodes, tau, h, r))
    case Div(n, d) => Quotient(Moved(f, nodes, tau, h, n), Moved(f, nodes, tau, h, d))
    case Sqrt(x) => f.sqrt(Moved(f, nodes, tau, h, x))
    case Exp(x) => f.exp(Moved(f, nodes, tau, h, x))
    case Ln(x) => f.ln(Moved(f, nodes, tau, h, x))
    case Sin(x) => f.sin(Moved(f, nodes, tau, h, x))
    case Cos(x) => f.cos(Moved(f, nodes, tau, h, x))
    case Neg(x) => -Moved(f, nodes, tau, h, x)
    case Bf16(x) => f.round(Moved(f, nodes, tau, h, x))
  }

  ghost function Path(f: Elementary, nodes: seq<Node>, tau: nat -> real, id: nat): (g: real -> real)
    requires Ordered(nodes) && id < |nodes|
    ensures forall h: real :: g(h) == Moved(f, nodes, tau, h, id)
  {
    (h: real) => Moved(f, nodes, tau, h, id)
  }

  /** Unmoved, a tape has the values it holds. */
  lemma {:induction false} MovedByNothing(f: Elementary, nodes: seq<Node>, tau: nat -> real, id: nat)
    requires Smooth(f, nodes) && id < |nodes|
    ensures Moved(f, nodes, tau, 0.0, id) == nodes[id].value
    decreases id
  {
    var op := nodes[id].operation;
    assert op.Below(id) && ComputedAt(f, nodes, id);
    if !op.Leaf() {
      MovedByNothing(f, nodes, tau, op.First());
      if op.Binary() {
        MovedByNothing(f, nodes, tau, op.Second());
      }
    }
  }

  ghost predicate PathDerives(f: Elementary, nodes: seq<Node>, tau: nat -> real, id: nat)
    requires Ordered(nodes) && id < |nodes|
  {
    Derives(Path(f, nodes, tau, id), 0.0, Tangent(f, nodes, tau, id))
  }

  lemma {:induction false} LeafPath(f: Elementary, nodes: seq<Node>, tau: nat -> real, id: nat)
    requires Ordered(nodes) && id < |nodes| && nodes[id].operation.Leaf()
    ensures PathDerives(f, nodes, tau, id)
  {
    LineDerives(Path(f, nodes, tau, id), 0.0, Tangent(f, nodes, tau, id));
  }

  // The two operands' paths have their tangents as derivatives.
  ghost predicate OperandsDerive(f: Elementary, nodes: seq<Node>, tau: nat -> real, id: nat)
    requires Smooth(f, nodes) && id < |nodes|
  {
    var op := nodes[id].operation;
    assert op.Below(id);
    && (!op.Leaf() ==> PathDerives(f, nodes, tau, op.First()))
    && (op.Binary() ==> PathDerives(f, nodes, tau, op.Second()))
  }

  lemma {:induction false} SumPath(f: Elementary, nodes: seq<Node>, tau: nat -> real, id: nat)
    requires Smooth(f, nodes) && id < |nodes| && OperandsDerive(f, nodes, tau, id)
    requires nodes[id].operation.Add? || nodes[id].operation.Neg?
    ensures PathDerives(f, nodes, tau, id)
  {
    var op, g := nodes[id].operation, Path(f, nodes, tau, id);
    assert op.Below(id);
    var l, a := Path(f, nodes, tau, op.First()), Tangent(f, nodes, tau, op.First());
    if op.Add? {
      SumDerives(g, l, Path(f, nodes, tau, op.right), 0.0, a, Tangent(f, nodes, tau, op.right));
    } else {
      NegativeDerives(g, l, 0.0, a);
    }
  }

  lemma {:induction false} MulPath(f: Elementary, nodes: seq<Node>, tau: nat -> real, id: nat)
    requires Smooth(f, nodes) && id < |nodes| && OperandsDerive(f, nodes, tau, id) && nodes[id].operation.Mul?
    ensures PathDerives(f, nodes, tau, id)
  {
    var l, r := nodes[id].operation.left, nodes[id].operation.right;
    assert nodes[id].operation.Below(id);
    MovedByNothing(f, nodes, tau, l);
    MovedByNothing(f, nodes, tau, r);
    ProductDerives(Path(f, nodes, tau, id), Path(f, nodes, tau, l), Path(f, nodes, tau, r), 0.0,
                   Tangent(f, nodes, tau, l), Tangent(f, nodes, tau, r));
  }

  lemma {:induction false} DivPath(f: Elementary, nodes: seq<Node>, tau: nat -> real, id: nat)
    requires Smooth(f, nodes) && id < |nodes| && OperandsDerive(f, nodes, tau, id) && nodes[id].operation.Div?
    ensures PathDerives(f, nodes, tau, id)
  {
    var n, d := nodes[id].operation.numerator, nodes[id].operation.denominator;
    assert nodes[id].operation.Below(id) && SmoothAt(f, nodes, id);
    MovedByNothing(f, nodes, tau, n);
    MovedByNothing(f, nodes, tau, d);
    QuotientDerives(Path(f, nodes, tau, id), Path(f, nodes, tau, n), Path(f, nodes, tau, d), 0.0,
                    Tangent(f, nodes, tau, n), Tangent(f, nodes, tau, d));
  }

  /** The elementary function of a node and its derivative at the operand's value. */
  ghost function Outer(f: Elementary, op: Operation): real -> real {
    match op
    case Sqrt(_) => f.sqrt
    case Exp(_) => f.exp
    case Ln(_) => f.ln
    case Sin(_) => f.sin
    case _ => f.cos
  }

  function OuterSlope(f: Elementary, op: Operation, x: real): real {
    match op
    case Sqrt(_) => Quotient(1.0, Times(2.0, f.sqrt(x)))
    case Exp(_) => f.exp(x)
    case Ln(_) => Quotient(1.0, x)
    case Sin(_) => f.cos(x)
    case _ => -f.sin(x)
  }

  predicate IsElementary(op: Operation) {
    op.Sqrt? || op.Exp? || op.Ln? || op.Sin? || op.Cos?
  }

  lemma {:induction false} QuotientOfOne(a: real, d: real)
    ensures Quotient(a, d) == Times(a, Quotient(1.0, d))
  {
    QuotientIsTimes(a, d);
    QuotientIsTimes(1.0, d);
  }

  lemma {:induction false} ElementaryTangent(f: Elementary, nodes: seq<Node>, tau: nat -> real, id: nat)
    requires Smooth(f, nodes) && id < |nodes| && IsElementary(nodes[id].operation)
    ensures var op := nodes[id].operation;
      && op.Below(id) && !op.Leaf()
      && Tangent(f, nodes, tau, id)
         == Times(Tangent(f, nodes, tau, op.First()), OuterSlope(f, op, nodes[op.First()].value))
  {
    var op := nodes[id].operation;
    assert op.Below(id) && ComputedAt(f, nodes, id);
    var a, x := Tangent(f, nodes, tau, op.First()), nodes[op.First()].value;
    QuotientOfOne(a, Times(2.0, f.sqrt(x)));
    QuotientOfOne(a, x);
    assert Times(a, -f.sin(x)) == -Times(a, f.sin(x));
  }

  lemma {:induction false} ElementaryPath(f: Elementary, nodes: seq<Node>, tau: nat -> real, id: nat)
    requires Smooth(f, nodes) && id < |nodes| && OperandsDerive(f, nodes, tau, id) && IsElementary(nodes[id].operation)
    ensures PathDerives(f, nodes, tau, id)
  {
    var op := nodes[id].operation;
    ElementaryTangent(f, nodes, tau, id);
    assert SmoothAt(f, nodes, id);
    MovedByNothing(f, nodes, tau, op.First());
    ChainDerives(Path(f, nodes, tau, id), Path(f, nodes, tau, op.First()), Outer(f, op), 0.0,
                 Tangent(f, nodes, tau, op.First()), OuterSlope(f, op, nodes[op.First()].value));
  }

  /** On every smooth tape the tangent is the derivative: as the parameters move along
      tau, the difference quotients of each value tend to its tangent. */
  lemma {:induction false} TangentIsDerivative(f: Elementary, nodes: seq<Node>, tau: nat -> real, id: nat)
    requires Smooth(f, nodes) && id < |nodes|
    ensures PathDerives(f, nodes, tau, id)
    decreases id
  {
    var op := nodes[id].operation;
    assert op.Below(id) && SmoothAt(f, nodes, id);
    if op.Leaf() {
      LeafPath(f, nodes, tau, id);
    } else {
      TangentIsDerivative(f, nodes, tau, op.First());
      if op.Binary() {
        TangentIsDerivative(f, nodes, tau, op.Second());
      }
      if op.Add? || op.Neg? {
        SumPath(f, nodes, tau, id);
      } else if op.Mul? {
        MulPath(f, nodes, tau, id);
      } else if op.Div? {
        DivPath(f, nodes, tau, id);
      } else {
        ElementaryPath(f, nodes, tau, id);
      }
    }
  }

  /** Moving the parameters by small steps moves each value by the step times its
      tangent, up to a multiple of the square of the step. */
  lemma {:induction false} TangentIsLinearPart(f: Elementary, nodes: seq<Node>, tau: nat -> real, id: nat)
    returns (reach: real, bound: real)
    requires Smooth(f, nodes) && id < |nodes|
    ensures reach > 0.0 && bound >= 0.0
    ensures forall h: real :: Fits(h, reach) ==>
      Linear(Moved(f, nodes, tau, h, id), nodes[id].value, Tangent(f, nodes, tau, id), bound, h)
  {
    TangentIsDerivative(f, nodes, tau, id);
    var g, d := Path(f, nodes, tau, id), Tangent(f, nodes, tau, id);
    reach, bound :| DerivesWithin(g, 0.0, d, reach, bound);
    MovedByNothing(f, nodes, tau, id);
    forall h: real | Fits(h, reach)
      ensures Linear(Moved(f, nodes, tau, h, id), nodes[id].value, d, bound, h)
    {
      LinearPart(g, d, reach, bound, h);
    }
  }

  /** A gradient is a derivative: after the sweep, a parameter's gradient is the
      derivative of the output by that parameter. */
  lemma {:induction false} GradientIsDerivative(f: Elementary, nodes: seq<Node>, output: nat, p: nat)
    requires Smooth(f, nodes) && Fresh(nodes) && output < |nodes| && p < |nodes| && nodes[p].operation.Parameter?
    ensures Derives(Path(f, nodes, Along(p), output), 0.0, SweepDown(f, Seeded(nodes, output), output + 1)[p].gradient)
  {
    GradientIsPartial(f, nodes, output, p);
    TangentIsDerivative(f, nodes, Along(p), output);
  }
}
