/**
The reverse-mode tape of the CPU oracle, over exact reals. The elementary
functions are parameters: nothing below depends on what they compute.
*/
module Tape {

  datatype Elementary = Elementary(
    sqrt: real -> real, exp: real -> real, ln: real -> real, sin: real -> real, cos: real -> real,
    round: real -> real)

  datatype Operation =
    | Constant
    | Parameter
    | Add(left: nat, right: nat)
    | Mul(left: nat, right: nat)
    | Div(numerator: nat, denominator: nat)
    | Sqrt(input: nat)
    | Exp(input: nat)
    | Ln(input: nat)
    | Sin(input: nat)
    | Cos(input: nat)
    | Neg(input: nat)
    | Bf16(input: nat)
  {
    ghost predicate Below(id: nat)
    {
      && (Add? || Mul? ==> left < id && right < id)
      && (Div? ==> numerator < id && denominator < id)
      && (!Leaf() && !Add? && !Mul? && !Div? ==> input < id)
    }

    predicate Leaf()
    {
      Constant? || Parameter?
    }

    predicate Binary()
    {
      Add? || Mul? || Div?
    }

    function First(): nat
      requires !Leaf()
    {
      if Div? then numerator else if Binary() then left else input
    }

    function Second(): nat
      requires Binary()
    {
      if Div? then denominator else right
    }
  }

  datatype Node = Node(value: real, gradient: real, operation: Operation)

  // Division made total; where the divisor is zero the source computes an
  // infinity or NaN instead.
  function Quotient(a: real, b: real): real
  {
    if b == 0.0 then 0.0 else a / b
  }

  // A named product, so that equal factors give equal products by congruence.
  function Times(a: real, b: real): real
  {
    a * b
  }

  /** Every node reads only earlier nodes. */
  ghost predicate Ordered(nodes: seq<Node>)
  {
    forall id :: 0 <= id < |nodes| ==> nodes[id].operation.Below(id)
  }

  // ----- the backward sweep as a function -----

  function Accumulate(nodes: seq<Node>, id: nat, delta: real): (r: seq<Node>)
    requires id < |nodes|
    ensures |r| == |nodes|
  {
    nodes[id := nodes[id].(gradient := nodes[id].gradient + delta)]
  }

  /** Hand the gradient of node `id` to its operands, with the source's partials. */
  function Sweep(f: Elementary, nodes: seq<Node>, id: nat): (r: seq<Node>)
    requires Ordered(nodes) && id < |nodes|
    ensures |r| == |nodes|
  {
    assert nodes[id].operation.Below(id);
    var g := nodes[id].gradient;
    match nodes[id].operation
    case Constant => nodes
    case Parameter => nodes
    case Add(l, r) => Accumulate(Accumulate(nodes, l, g), r, g)
    case Mul(l, r) => Accumulate(Accumulate(nodes, l, Times(g, nodes[r].value)), r, Times(g, nodes[l].value))
    case Div(n, d) =>
      var dv := nodes[d].value;
      Accumulate(Accumulate(nodes, n, Quotient(g, dv)), d, -Quotient(Times(g, nodes[n].value), Times(dv, dv)))
    case Sqrt(x) => Accumulate(nodes, x, Quotient(Times(g, 0.5), nodes[id].value))
    case Exp(x) => Accumulate(nodes, x, Times(g, nodes[id].value))
    case Ln(x) => Accumulate(nodes, x, Quotient(g, nodes[x].value))
    case Sin(x) => Accumulate(nodes, x, Times(g, f.cos(nodes[x].value)))
    case Cos(x) => Accumulate(nodes, x, -Times(g, f.sin(nodes[x].value)))
    case Neg(x) => Accumulate(nodes, x, -g)
    case Bf16(x) => Accumulate(nodes, x, g)
  }

  /** Same values and operations; only gradients may differ. */
  ghost predicate SameTape(a: seq<Node>, b: seq<Node>)
  {
    && |a| == |b|
    && forall id :: 0 <= id < |a| ==> a[id].value == b[id].value && a[id].operation == b[id].operation
  }

  lemma {:induction false} SweepKeepsTape(f: Elementary, nodes: seq<Node>, id: nat)
    requires Ordered(nodes) && id < |nodes|
    ensures SameTape(nodes, Sweep(f, nodes, id)) && Ordered(Sweep(f, nodes, id))
    ensures forall j :: id <= j < |nodes| ==> Sweep(f, nodes, id)[j] == nodes[j]
  {
    assert nodes[id].operation.Below(id);
  }

  /** Sweep nodes n - 1, ..., 0. */
  function SweepDown(f: Elementary, nodes: seq<Node>, n: nat): (r: seq<Node>)
    requires Ordered(nodes) && n <= |nodes|
    ensures |r| == |nodes|
    decreases n
  {
    if n == 0 then nodes
    else
      SweepKeepsTape(f, nodes, n - 1);
      SweepDown(f, Sweep(f, nodes, n - 1), n - 1)
  }

  lemma {:induction false} SweepDownKeepsTape(f: Elementary, nodes: seq<Node>, n: nat)
    requires Ordered(nodes) && n <= |nodes|
    ensures SameTape(nodes, SweepDown(f, nodes, n)) && Ordered(SweepDown(f, nodes, n))
    decreases n
  {
    if n > 0 {
      SweepKeepsTape(f, nodes, n - 1);
      SweepDownKeepsTape(f, Sweep(f, nodes, n - 1), n - 1);
    }
  }

  function Seeded(nodes: seq<Node>, output: nat): (r: seq<Node>)
    requires output < |nodes|
    ensures SameTape(nodes, r)
  {
    nodes[output := nodes[output].(gradient := 1.0)]
  }

  // ----- the tape -----

  class Tape {
    const f: Elementary
    var nodes: seq<Node>

    ghost predicate Valid()
      reads this
    {
      Ordered(nodes)
    }

    constructor (f: Elementary)
      ensures Valid() && nodes == [] && this.f == f
    {
      this.f := f;
      nodes := [];
    }

    method Push(value: real, operation: Operation) returns (id: nat)
      requires Valid() && operation.Below(|nodes|)
      modifies this`nodes
      ensures Valid() && id == |old(nodes)| && nodes == old(nodes) + [Node(value, 0.0, operation)]
    {
      id := |nodes|;
      nodes := nodes + [Node(value, 0.0, operation)];
    }

    method PushConstant(value: real) returns (id: nat)
      requires Valid()
      modifies this`nodes
      ensures Valid() && id == |old(nodes)| && nodes == old(nodes) + [Node(value, 0.0, Constant)]
    {
      id := Push(value, Constant);
    }

    method PushParameter(value: real) returns (id: nat)
      requires Valid()
      modifies this`nodes
      ensures Valid() && id == |old(nodes)| && nodes == old(nodes) + [Node(value, 0.0, Parameter)]
    {
      id := Push(value, Parameter);
    }

    method PushAdd(left: nat, right: nat) returns (id: nat)
      requires Valid() && left < |nodes| && right < |nodes|
      modifies this`nodes
      ensures Valid() && id == |old(nodes)|
      ensures nodes == old(nodes) + [Node(old(nodes)[left].value + old(nodes)[right].value, 0.0, Add(left, right))]
    {
      id := Push(nodes[left].value + nodes[right].value, Add(left, right));
    }

    method PushMul(left: nat, right: nat) returns (id: nat)
      requires Valid() && left < |nodes| && right < |nodes|
      modifies this`nodes
      ensures Valid() && id == |old(nodes)|
      ensures nodes == old(nodes) + [Node(old(nodes)[left].value * old(nodes)[right].value, 0.0, Mul(left, right))]
    {
      id := Push(nodes[left].value * nodes[right].value, Mul(left, right));
    }

    method PushDiv(numerator: nat, denominator: nat) returns (id: nat)
      requires Valid() && numerator < |nodes| && denominator < |nodes|
      modifies this`nodes
      ensures Valid() && id == |old(nodes)|
      ensures nodes == old(nodes) + [Node(Quotient(old(nodes)[numerator].value, old(nodes)[denominator].value), 0.0,
                                          Div(numerator, denominator))]
    {
      id := Push(Quotient(nodes[numerator].value, nodes[denominator].value), Div(numerator, denominator));
    }

    method PushSqrt(input: nat) returns (id: nat)
      requires Valid() && input < |nodes|
      modifies this`nodes
      ensures Valid() && id == |old(nodes)|
      ensures nodes == old(nodes) + [Node(f.sqrt(old(nodes)[input].value), 0.0, Sqrt(input))]
    {
      id := Push(f.sqrt(nodes[input].value), Sqrt(input));
    }

    method PushExp(input: nat) returns (id: nat)
      requires Valid() && input < |nodes|
      modifies this`nodes
      ensures Valid() && id == |old(nodes)|
      ensures nodes == old(nodes) + [Node(f.exp(old(nodes)[input].value), 0.0, Exp(input))]
    {
      id := Push(f.exp(nodes[input].value), Exp(input));
    }

    method PushLn(input: nat) returns (id: nat)
      requires Valid() && input < |nodes|
      modifies this`nodes
      ensures Valid() && id == |old(nodes)|
      ensures nodes == old(nodes) + [Node(f.ln(old(nodes)[input].value), 0.0, Ln(input))]
    {
      id := Push(f.ln(nodes[input].value), Ln(input));
    }

    method PushSin(input: nat) returns (id: nat)
      requires Valid() && input < |nodes|
      modifies this`nodes
      ensures Valid() && id == |old(nodes)|
      ensures nodes == old(nodes) + [Node(f.sin(old(nodes)[input].value), 0.0, Sin(input))]
    {
      id := Push(f.sin(nodes[input].value), Sin(input));
    }

    method PushCos(input: nat) returns (id: nat)
      requires Valid() && input < |nodes|
      modifies this`nodes
      ensures Valid() && id == |old(nodes)|
      ensures nodes == old(nodes) + [Node(f.cos(old(nodes)[input].value), 0.0, Cos(input))]
    {
      id := Push(f.cos(nodes[input].value), Cos(input));
    }

    method PushNeg(input: nat) returns (id: nat)
      requires Valid() && input < |nodes|
      modifies this`nodes
      ensures Valid() && id == |old(nodes)|
      ensures nodes == old(nodes) + [Node(-old(nodes)[input].value, 0.0, Neg(input))]
    {
      id := Push(-nodes[input].value, Neg(input));
    }

    method PushBf16(input: nat) returns (id: nat)
      requires Valid() && input < |nodes|
      modifies this`nodes
      ensures Valid() && id == |old(nodes)|
      ensures nodes == old(nodes) + [Node(f.round(old(nodes)[input].value), 0.0, Bf16(input))]
    {
      id := Push(f.round(nodes[input].value), Bf16(input));
    }

    method AddGradient(id: nat, delta: real)
      requires Valid() && id < |nodes|
      modifies this`nodes
      ensures Valid() && SameTape(old(nodes), nodes)
      ensures nodes == Accumulate(old(nodes), id, delta)
    {
      nodes := nodes[id := nodes[id].(gradient := nodes[id].gradient + delta)];
    }

    /** One turn of the backward loop. */
    method SweepNode(id: nat)
      requires Valid() && id < |nodes|
      modifies this`nodes
      ensures Valid() && nodes == Sweep(f, old(nodes), id)
    {
      SweepKeepsTape(f, nodes, id);
      var gradient := nodes[id].gradient;
      assert nodes[id].operation.Below(id);
      match nodes[id].operation {
        case Constant | Parameter =>
        case Add(left, right) =>
          AddGradient(left, gradient);
          AddGradient(right, gradient);
        case Mul(left, right) =>
          AddGradient(left, Times(gradient, nodes[right].value));
          AddGradient(right, Times(gradient, nodes[left].value));
        case Div(numerator, denominator) =>
          var denominatorValue := nodes[denominator].value;
          AddGradient(numerator, Quotient(gradient, denominatorValue));
          AddGradient(denominator, -Quotient(Times(gradient, nodes[numerator].value), Times(denominatorValue, denominatorValue)));
        case Sqrt(input) =>
          AddGradient(input, Quotient(Times(gradient, 0.5), nodes[id].value));
        case Exp(input) =>
          AddGradient(input, Times(gradient, nodes[id].value));
        case Ln(input) =>
          AddGradient(input, Quotient(gradient, nodes[input].value));
        case Sin(input) =>
          AddGradient(input, Times(gradient, f.cos(nodes[input].value)));
        case Cos(input) =>
          AddGradient(input, -Times(gradient, f.sin(nodes[input].value)));
        case Neg(input) =>
          AddGradient(input, -gradient);
        case Bf16(input) =>
          AddGradient(input, gradient);
      }
    }

    method Backward(output: nat)
      requires Valid() && output < |nodes|
      modifies this`nodes
      ensures Valid()
      ensures nodes == SweepDown(f, Seeded(old(nodes), output), output + 1)
    {
      nodes := nodes[output := nodes[output].(gradient := 1.0)];
      assert Ordered(Seeded(old(nodes), output));
      for id := output + 1 downto 0
        invariant Valid() && |nodes| == |old(nodes)|
        invariant SweepDown(f, nodes, id) == SweepDown(f, Seeded(old(nodes), output), output + 1)
      {
        SweepNode(id);
      }
    }
  }

  // ----- the forward tangent map -----

  /** The calculus rule of one operation, from the rates `a` and `b` of its first
      and second operand; a BF16 cast counts as the identity. */
  function LocalTangent(f: Elementary, nodes: seq<Node>, id: nat, a: real, b: real): real
    requires Ordered(nodes) && id < |nodes| && !nodes[id].operation.Leaf()
  {
    assert nodes[id].operation.Below(id);
    match nodes[id].operation
    case Add(l, r) => a + b
    case Mul(l, r) => Times(a, nodes[r].value) + Times(nodes[l].value, b)
    case Div(n, d) => Quotient(Times(a, nodes[d].value) - Times(nodes[n].value, b), Times(nodes[d].value, nodes[d].value))
    case Sqrt(x) => Quotient(a, Times(2.0, nodes[id].value))
    case Exp(x) => Times(a, nodes[id].value)
    case Ln(x) => Quotient(a, nodes[x].value)
    case Sin(x) => Times(a, f.cos(nodes[x].value))
    case Cos(x) => -Times(a, f.sin(nodes[x].value))
    case Neg(x) => -a
    case Bf16(x) => a
  }

  /** Directional derivative of node `id` when parameter p moves at rate tau(p). */
  ghost function Tangent(f: Elementary, nodes: seq<Node>, tau: nat -> real, id: nat): real
    requires Ordered(nodes) && id < |nodes|
    decreases id
  {
    var op := nodes[id].operation;
    assert op.Below(id);
    if op.Constant? then 0.0
    else if op.Parameter? then tau(id)
    else
      LocalTangent(f, nodes, id, Tangent(f, nodes, tau, op.First()),
                   if op.Binary() then Tangent(f, nodes, tau, op.Second()) else 0.0)
  }

  lemma {:induction false} LocalTangentFrame(f: Elementary, m: seq<Node>, n: seq<Node>, id: nat, a: real, b: real)
    requires Ordered(m) && Ordered(n) && SameTape(m, n) && id < |m| && !m[id].operation.Leaf()
    ensures LocalTangent(f, m, id, a, b) == LocalTangent(f, n, id, a, b)
  {
    assert m[id].operation.Below(id);
  }

  lemma {:induction false} TangentFrame(f: Elementary, m: seq<Node>, n: seq<Node>, tau: nat -> real, id: nat)
    requires Ordered(m) && Ordered(n) && SameTape(m, n) && id < |m|
    ensures Tangent(f, m, tau, id) == Tangent(f, n, tau, id)
    decreases id
  {
    var op := m[id].operation;
    assert op.Below(id);
    if !op.Leaf() {
      TangentFrame(f, m, n, tau, op.First());
      var a := Tangent(f, m, tau, op.First());
      if op.Binary() {
        TangentFrame(f, m, n, tau, op.Second());
        LocalTangentFrame(f, m, n, id, a, Tangent(f, m, tau, op.Second()));
      } else {
        LocalTangentFrame(f, m, n, id, a, 0.0);
      }
    }
  }

  // ----- conservation during the sweep -----

  // A vector of tangents, one per node; the sweep conserves gradient times tangent.
  ghost function Tangents(f: Elementary, nodes: seq<Node>, tau: nat -> real): (t: seq<real>)
    requires Ordered(nodes)
    ensures |t| == |nodes|
    ensures forall id :: 0 <= id < |nodes| ==> t[id] == Tangent(f, nodes, tau, id)
  {
    seq(|nodes|, id requires 0 <= id < |nodes| => Tangent(f, nodes, tau, id))
  }

  /** Gradient times tangent over nodes below `n`, whatever they are, plus over
      the leaves from `n` up. */
  ghost function Charge(nodes: seq<Node>, t: seq<real>, n: nat, upto: nat): real
    requires |t| == |nodes| && upto <= |nodes|
    decreases upto
  {
    if upto == 0 then 0.0
    else
      Charge(nodes, t, n, upto - 1)
      + if upto - 1 < n || nodes[upto - 1].operation.Leaf() then Times(nodes[upto - 1].gradient, t[upto - 1]) else 0.0
  }

  lemma {:induction false} TimesAdds(a: real, b: real, c: real)
    ensures Times(a + b, c) == Times(a, c) + Times(b, c)
  {
  }

  lemma {:induction false} ChargeAccumulate(nodes: seq<Node>, t: seq<real>, n: nat, upto: nat, x: nat, delta: real)
    requires |t| == |nodes| && upto <= |nodes| && x < n && x < |nodes|
    ensures Charge(Accumulate(nodes, x, delta), t, n, upto)
         == Charge(nodes, t, n, upto) + if x < upto then Times(delta, t[x]) else 0.0
    decreases upto
  {
    if upto > 0 {
      TimesAdds(nodes[x].gradient, delta, t[x]);
      ChargeAccumulate(nodes, t, n, upto - 1, x, delta);
    }
  }

  // Lowering the watermark past a node drops exactly that node's term, unless it
  // is a leaf.
  lemma {:induction false} ChargeLower(nodes: seq<Node>, t: seq<real>, n: nat, upto: nat)
    requires |t| == |nodes| && upto <= |nodes| && n < |nodes|
    ensures Charge(nodes, t, n, upto)
         == Charge(nodes, t, n + 1, upto)
            - if n < upto && !nodes[n].operation.Leaf() then Times(nodes[n].gradient, t[n]) else 0.0
    decreases upto
  {
    if upto > 0 {
      ChargeLower(nodes, t, n, upto - 1);
    }
  }

  // What one turn hands to the first and second operand.
  function ToFirst(f: Elementary, nodes: seq<Node>, id: nat): real
    requires Ordered(nodes) && id < |nodes| && !nodes[id].operation.Leaf()
  {
    assert nodes[id].operation.Below(id);
    var g := nodes[id].gradient;
    match nodes[id].operation
    case Add(l, r) => g
    case Mul(l, r) => Times(g, nodes[r].value)
    case Div(n, d) => Quotient(g, nodes[d].value)
    case Sqrt(x) => Quotient(Times(g, 0.5), nodes[id].value)
    case Exp(x) => Times(g, nodes[id].value)
    case Ln(x) => Quotient(g, nodes[x].value)
    case Sin(x) => Times(g, f.cos(nodes[x].value))
    case Cos(x) => -Times(g, f.sin(nodes[x].value))
    case Neg(x) => -g
    case Bf16(x) => g
  }

  function ToSecond(nodes: seq<Node>, id: nat): real
    requires Ordered(nodes) && id < |nodes| && nodes[id].operation.Binary()
  {
    assert nodes[id].operation.Below(id);
    var g := nodes[id].gradient;
    match nodes[id].operation
    case Add(l, r) => g
    case Mul(l, r) => Times(g, nodes[l].value)
    case Div(n, d) => -Quotient(Times(g, nodes[n].value), Times(nodes[d].value, nodes[d].value))
  }

  function Inverse(d: real): real
  {
    if d == 0.0 then 0.0 else 1.0 / d
  }

  lemma {:induction false} QuotientIsProduct(a: real, d: real)
    ensures Quotient(a, d) == a * Inverse(d)
  {
  }

  lemma {:induction false} InverseCancels(d: real, i: real)
    requires i == Inverse(d)
    ensures d * i * i == i
  {
    if d != 0.0 {
      assert d * i == 1.0;
    }
  }

  lemma {:induction false} InverseIsUnique(d: real, i: real)
    requires d != 0.0 && d * i == 1.0
    ensures i == Inverse(d)
  {
  }

  lemma {:induction false} InverseOfProduct(c: real, d: real, i: real, j: real)
    requires i == Inverse(c) && j == Inverse(d)
    ensures Inverse(c * d) == i * j
  {
    if c != 0.0 && d != 0.0 {
      assert c * i == 1.0 && d * j == 1.0;
      assert (c * d) * (i * j) == (c * i) * (d * j) == 1.0;
      InverseIsUnique(c * d, i * j);
    }
  }

  lemma {:induction false} DivPolynomial(g: real, n: real, d: real, a: real, b: real, i: real)
    requires d * i * i == i
    ensures (g * i) * a - ((g * n) * (i * i)) * b == g * ((a * d - n * b) * (i * i))
  {
    assert g * ((a * d - n * b) * (i * i)) == (g * a) * (d * i * i) - ((g * n) * (i * i)) * b;
  }

  lemma {:induction false} DivAdjoint(g: real, n: real, d: real, a: real, b: real)
    ensures Times(Quotient(g, d), a) + Times(-Quotient(Times(g, n), Times(d, d)), b)
         == Times(g, Quotient(Times(a, d) - Times(n, b), Times(d, d)))
  {
    var i := Inverse(d);
    QuotientIsProduct(g, d);
    QuotientIsProduct(g * n, d * d);
    QuotientIsProduct(a * d - n * b, d * d);
    InverseOfProduct(d, d, i, i);
    InverseCancels(d, i);
    DivPolynomial(g, n, d, a, b, i);
  }

  lemma {:induction false} SqrtAdjoint(g: real, s: real, a: real)
    ensures Times(Quotient(Times(g, 0.5), s), a) == Times(g, Quotient(a, Times(2.0, s)))
  {
    var i := Inverse(s);
    QuotientIsProduct(g * 0.5, s);
    QuotientIsProduct(a, 2.0 * s);
    InverseOfProduct(2.0, s, 0.5, i);
    assert ((g * 0.5) * i) * a == g * (a * (0.5 * i));
  }

  lemma {:induction false} LnAdjoint(g: real, x: real, a: real)
    ensures Times(Quotient(g, x), a) == Times(g, Quotient(a, x))
  {
    var i := Inverse(x);
    QuotientIsProduct(g, x);
    QuotientIsProduct(a, x);
    assert (g * i) * a == g * (a * i);
  }

  lemma {:induction false} MulAdjoint(g: real, m: real, n: real, a: real, b: real)
    ensures Times(Times(g, n), a) + Times(Times(g, m), b) == Times(g, Times(a, n) + Times(m, b))
  {
  }

  lemma {:induction false} ScaleAdjoint(g: real, m: real, a: real)
    ensures Times(Times(g, m), a) == Times(g, Times(a, m))
    ensures Times(-Times(g, m), a) == Times(g, -Times(a, m))
  {
  }

  lemma {:induction false} SignAdjoint(g: real, a: real, b: real)
    ensures Times(g, a) + Times(g, b) == Times(g, a + b)
    ensures Times(-g, a) == Times(g, -a)
  {
  }

  /** Locally, what a node hands back is the transpose of its tangent rule. */
  lemma {:induction false} LocalAdjointTwo(f: Elementary, nodes: seq<Node>, id: nat, a: real, b: real)
    requires Ordered(nodes) && id < |nodes| && nodes[id].operation.Binary()
    ensures Times(ToFirst(f, nodes, id), a) + Times(ToSecond(nodes, id), b)
         == Times(nodes[id].gradient, LocalTangent(f, nodes, id, a, b))
  {
    assert nodes[id].operation.Below(id);
    var g := nodes[id].gradient;
    match nodes[id].operation {
      case Add(l, r) => SignAdjoint(g, a, b);
      case Mul(l, r) => MulAdjoint(g, nodes[l].value, nodes[r].value, a, b);
      case Div(n, d) => DivAdjoint(g, nodes[n].value, nodes[d].value, a, b);
    }
  }

  lemma {:induction false} LocalAdjointOne(f: Elementary, nodes: seq<Node>, id: nat, a: real)
    requires Ordered(nodes) && id < |nodes| && !nodes[id].operation.Leaf() && !nodes[id].operation.Binary()
    ensures Times(ToFirst(f, nodes, id), a) == Times(nodes[id].gradient, LocalTangent(f, nodes, id, a, 0.0))
  {
    assert nodes[id].operation.Below(id);
    var g := nodes[id].gradient;
    match nodes[id].operation {
      case Sqrt(x) => SqrtAdjoint(g, nodes[id].value, a);
      case Exp(x) => ScaleAdjoint(g, nodes[id].value, a);
      case Ln(x) => LnAdjoint(g, nodes[x].value, a);
      case Sin(x) => ScaleAdjoint(g, f.cos(nodes[x].value), a);
      case Cos(x) => ScaleAdjoint(g, f.sin(nodes[x].value), a);
      case Neg(x) => SignAdjoint(g, a, 0.0);
      case Bf16(x) =>
    }
  }

  lemma {:induction false} SweepHandsBack(f: Elementary, nodes: seq<Node>, id: nat)
    requires Ordered(nodes) && id < |nodes| && !nodes[id].operation.Leaf()
    ensures var op := nodes[id].operation;
      && op.First() < id && (op.Binary() ==> op.Second() < id)
      && Sweep(f, nodes, id) ==
         if op.Binary() then Accumulate(Accumulate(nodes, op.First(), ToFirst(f, nodes, id)), op.Second(), ToSecond(nodes, id))
         else Accumulate(nodes, op.First(), ToFirst(f, nodes, id))
  {
    assert nodes[id].operation.Below(id);
  }

  lemma {:induction false} HandBackOne(nodes: seq<Node>, t: seq<real>, id: nat, x: nat, dx: real)
    requires |t| == |nodes| && x < id < |nodes| && !nodes[id].operation.Leaf()
    requires Times(dx, t[x]) == Times(nodes[id].gradient, t[id])
    ensures Charge(Accumulate(nodes, x, dx), t, id, |nodes|) == Charge(nodes, t, id + 1, |nodes|)
  {
    ChargeLower(nodes, t, id, |nodes|);
    ChargeAccumulate(nodes, t, id, |nodes|, x, dx);
  }

  lemma {:induction false} HandBackTwo(nodes: seq<Node>, t: seq<real>, id: nat, x: nat, dx: real, y: nat, dy: real)
    requires |t| == |nodes| && x < id < |nodes| && y < id && !nodes[id].operation.Leaf()
    requires Times(dx, t[x]) + Times(dy, t[y]) == Times(nodes[id].gradient, t[id])
    ensures Charge(Accumulate(Accumulate(nodes, x, dx), y, dy), t, id, |nodes|) == Charge(nodes, t, id + 1, |nodes|)
  {
    ChargeLower(nodes, t, id, |nodes|);
    ChargeAccumulate(nodes, t, id, |nodes|, x, dx);
    ChargeAccumulate(Accumulate(nodes, x, dx), t, id, |nodes|, y, dy);
  }

  /** One turn moves a node's charge to its operands without loss. */
  lemma {:induction false} SweepConserves(f: Elementary, nodes: seq<Node>, tau: nat -> real, t: seq<real>, id: nat)
    requires Ordered(nodes) && id < |nodes| && t == Tangents(f, nodes, tau)
    ensures Charge(Sweep(f, nodes, id), t, id, |nodes|) == Charge(nodes, t, id + 1, |nodes|)
  {
    var op := nodes[id].operation;
    assert op.Below(id);
    if op.Leaf() {
      ChargeLower(nodes, t, id, |nodes|);
    } else {
      SweepHandsBack(f, nodes, id);
      var x := op.First();
      if op.Binary() {
        LocalAdjointTwo(f, nodes, id, t[x], t[op.Second()]);
        HandBackTwo(nodes, t, id, x, ToFirst(f, nodes, id), op.Second(), ToSecond(nodes, id));
      } else {
        LocalAdjointOne(f, nodes, id, t[x]);
        HandBackOne(nodes, t, id, x, ToFirst(f, nodes, id));
      }
    }
  }

  lemma {:induction false} TangentsFrame(f: Elementary, m: seq<Node>, n: seq<Node>, tau: nat -> real)
    requires Ordered(m) && Ordered(n) && SameTape(m, n)
    ensures Tangents(f, m, tau) == Tangents(f, n, tau)
  {
    forall id | 0 <= id < |m| ensures Tangents(f, m, tau)[id] == Tangents(f, n, tau)[id] {
      TangentFrame(f, m, n, tau, id);
    }
  }

  lemma {:induction false} OneSweep(f: Elementary, nodes: seq<Node>, tau: nat -> real, t: seq<real>, n: nat) returns (next: seq<Node>)
    requires Ordered(nodes) && 0 < n <= |nodes| && t == Tangents(f, nodes, tau)
    ensures next == Sweep(f, nodes, n - 1) && Ordered(next) && |next| == |nodes|
    ensures SweepDown(f, nodes, n) == SweepDown(f, next, n - 1)
    ensures t == Tangents(f, next, tau)
    ensures Charge(next, t, n - 1, |next|) == Charge(nodes, t, n, |nodes|)
  {
    next := Sweep(f, nodes, n - 1);
    SweepConserves(f, nodes, tau, t, n - 1);
    SweepKeepsTape(f, nodes, n - 1);
    TangentsFrame(f, nodes, next, tau);
  }

  lemma {:induction false} SweepDownConserves(f: Elementary, nodes: seq<Node>, tau: nat -> real, t: seq<real>, n: nat)
    requires Ordered(nodes) && n <= |nodes| && t == Tangents(f, nodes, tau)
    ensures Charge(SweepDown(f, nodes, n), t, 0, |nodes|) == Charge(nodes, t, n, |nodes|)
    decreases n
  {
    if n > 0 {
      var next := OneSweep(f, nodes, tau, t, n);
      SweepDownConserves(f, next, tau, t, n - 1);
    }
  }

  // ----- the adjoint theorem -----

  /** Sum over parameters of gradient times rate. */
  ghost function ParameterDot(nodes: seq<Node>, tau: nat -> real, upto: nat): real
    requires upto <= |nodes|
    decreases upto
  {
    if upto == 0 then 0.0
    else
      ParameterDot(nodes, tau, upto - 1)
      + if nodes[upto - 1].operation.Parameter? then Times(nodes[upto - 1].gradient, tau(upto - 1)) else 0.0
  }

  lemma {:induction false} ChargeOfLeaves(f: Elementary, tape: seq<Node>, nodes: seq<Node>, tau: nat -> real, upto: nat)
    requires Ordered(tape) && SameTape(tape, nodes) && upto <= |nodes|
    ensures Charge(nodes, Tangents(f, tape, tau), 0, upto) == ParameterDot(nodes, tau, upto)
    decreases upto
  {
    if upto > 0 {
      ChargeOfLeaves(f, tape, nodes, tau, upto - 1);
    }
  }

  // Seeding a tape whose gradients are zero puts all the charge on the output.
  lemma {:induction false} ChargeOfSeed(nodes: seq<Node>, t: seq<real>, output: nat, upto: nat)
    requires |t| == |nodes| && output < |nodes| && upto <= |nodes|
    requires forall id :: 0 <= id < |nodes| ==> nodes[id].gradient == 0.0
    ensures Charge(Seeded(nodes, output), t, output + 1, upto) == if output < upto then t[output] else 0.0
    decreases upto
  {
    if upto > 0 {
      ChargeOfSeed(nodes, t, output, upto - 1);
    }
  }

  ghost predicate Fresh(nodes: seq<Node>)
  {
    forall id :: 0 <= id < |nodes| ==> nodes[id].gradient == 0.0
  }

  /**
  Reverse mode is the adjoint of forward mode. On every tape and for every rate of
  change of the parameters, gradient dotted with rate is the output's tangent;
  nodes used twice, or as both operands, are no exception.
  */
  lemma {:induction false} BackwardIsAdjoint(f: Elementary, nodes: seq<Node>, output: nat, tau: nat -> real)
    requires Ordered(nodes) && Fresh(nodes) && output < |nodes|
    ensures ParameterDot(SweepDown(f, Seeded(nodes, output), output + 1), tau, |nodes|)
         == Tangent(f, nodes, tau, output)
  {
    var seeded := Seeded(nodes, output);
    assert Ordered(seeded);
    var final := SweepDown(f, seeded, output + 1);
    TangentsFrame(f, nodes, seeded, tau);
    SweepDownConserves(f, seeded, tau, Tangents(f, seeded, tau), output + 1);
    ChargeOfSeed(nodes, Tangents(f, nodes, tau), output, |nodes|);
    SweepDownKeepsTape(f, seeded, output + 1);
    ChargeOfLeaves(f, seeded, final, tau, |nodes|);
  }

  ghost function Along(p: nat): nat -> real
  {
    id => if id == p then 1.0 else 0.0
  }

  lemma {:induction false} DotAlong(nodes: seq<Node>, p: nat, upto: nat)
    requires p < |nodes| && upto <= |nodes| && nodes[p].operation.Parameter?
    ensures ParameterDot(nodes, Along(p), upto) == if p < upto then nodes[p].gradient else 0.0
    decreases upto
  {
    if upto > 0 {
      DotAlong(nodes, p, upto - 1);
    }
  }

  /** Each parameter's gradient is the partial derivative of the output. */
  lemma {:induction false} GradientIsPartial(f: Elementary, nodes: seq<Node>, output: nat, p: nat)
    requires Ordered(nodes) && Fresh(nodes) && output < |nodes|
    requires p < |nodes| && nodes[p].operation.Parameter?
    ensures SweepDown(f, Seeded(nodes, output), output + 1)[p].gradient == Tangent(f, nodes, Along(p), output)
  {
    var seeded := Seeded(nodes, output);
    assert Ordered(seeded);
    SweepDownKeepsTape(f, seeded, output + 1);
    BackwardIsAdjoint(f, nodes, output, Along(p));
    DotAlong(SweepDown(f, seeded, output + 1), p, |nodes|);
  }
}
