/** Concrete uses of the engine and the network, as the repository's test
    programs run them. */
module Scenario {
  import opened Graph
  import opened Traversal
  import opened Engine
  import opened Nn

  /** `test_sanity_check`: the expression of test.c and main.cpp evaluates
      to -20 at x = -4, and after the backward pass the output node holds
      the seeded gradient 1. */
  method SanityCheck(fl: FloatOps) returns (e: Engine, x: Value, y: Value)
    ensures e.Valid() && x.id < e.numValues && y.id < e.numValues
    ensures x.data == -4.0 && y.data == -20.0
    ensures e.Nodes()[y.id].grad == 1.0
  {
    e := new Engine();
    x := e.MakeValue(-4.0);
    var z := SanityZ(e, x);
    assert z.data == -10.0;
    var q, h := SanityQH(e, z, x);
    assert q.data == 40.0 && h.data == 100.0;
    y := SanityY(e, h, q, x);
    var _ := e.Backward(y, fl);
  }

  /** `z = 2 * x + 2 + x` */
  method SanityZ(e: Engine, x: Value) returns (z: Value)
    requires e.Valid() && x.id < e.numValues
    modifies e, e.values
    ensures e.values == old(e.values) || fresh(e.values)
    ensures e.Valid() && old(e.numValues) < e.numValues && z.id < e.numValues
    ensures old(e.Nodes()) <= e.Nodes()
    ensures z.data == 2.0 * x.data + 2.0 + x.data
  {
    var two := e.MakeValue(2.0);
    var t := e.ValMul(two, x);
    var two' := e.MakeValue(2.0);
    t := e.ValAdd(t, two');
    z := e.ValAdd(t, x);
  }

  /** `q = relu(z) + z * x` and `h = relu(z * z)` */
  method SanityQH(e: Engine, z: Value, x: Value) returns (q: Value, h: Value)
    requires e.Valid() && z.id < e.numValues && x.id < e.numValues
    modifies e, e.values
    ensures e.values == old(e.values) || fresh(e.values)
    ensures e.Valid() && old(e.numValues) < e.numValues && q.id < e.numValues && h.id < e.numValues
    ensures old(e.Nodes()) <= e.Nodes()
    ensures q.data == Relu(z.data) + z.data * x.data && h.data == Relu(z.data * z.data)
  {
    var rz := e.ValRelu(z);
    var zx := e.ValMul(z, x);
    q := e.ValAdd(rz, zx);
    var zz := e.ValMul(z, z);
    h := e.ValRelu(zz);
  }

  /** `y = h + q + q * x` */
  method SanityY(e: Engine, h: Value, q: Value, x: Value) returns (y: Value)
    requires e.Valid() && h.id < e.numValues && q.id < e.numValues && x.id < e.numValues
    modifies e, e.values
    ensures e.values == old(e.values) || fresh(e.values)
    ensures e.Valid() && y.id < e.numValues
    ensures old(e.Nodes()) <= e.Nodes()
    ensures y.data == h.data + q.data + q.data * x.data
  {
    var hq := e.ValAdd(h, q);
    var qx := e.ValMul(q, x);
    y := e.ValAdd(hq, qx);
  }

  /** `c = a + a`: both operand slots of c name a, so the backward pass
      gives a the gradient 2, once per slot. */
  method FanOut(fl: FloatOps, data: real) returns (e: Engine, a: Value, c: Value)
    ensures e.Valid() && a.id < e.numValues && c.id < e.numValues
    ensures c.data == data + data
    ensures e.Nodes()[c.id].grad == 1.0 && e.Nodes()[a.id].grad == 2.0
  {
    e := new Engine();
    a := e.MakeValue(data);
    c := e.ValAdd(a, a);
    ghost var s0 := e.Nodes();
    assert s0 == [a, c];
    ghost var order := e.Backward(c, fl);
    ReachableSelf(s0, 1);
    assert 1 in order;
    forall k | 0 <= k < |order| ensures 0 <= order[k] < 2 {
      ReachableBelow(s0, 1, order[k]);
    }
    DistinctInRange(order, 0, 2);
    ghost var seeded := Seed(s0, 1);
    ghost var once := LocalRule(seeded, 1, fl);
    ApplyRulesStep(seeded, [], 1, fl);
    AddTwiceSameOperand(seeded, 1, fl);
    assert once[0].grad == 2.0;
    if |order| == 1 {
      assert order == [1];
    } else {
      assert order == [1] + [0];
      ApplyRulesStep(seeded, [1], 0, fl);
      assert LocalRule(once, 0, fl) == once;
    }
  }

  /** The network of test.c: widths 784, 30, 10 give 23860 parameters. */
  method MnistParams() returns (e: Engine, mlp: Mlp, numParams: nat)
    ensures Shaped(mlp) && mlp.sizes == [784, 30, 10]
    ensures numParams == 23860
  {
    e := new Engine();
    mlp := MlpCreate(e, [784, 30, 10]);
    var params;
    params, numParams := MlpParams(mlp);
    MnistParamCount(mlp);
  }
  /** The rest of test.c's main: 784 inputs of value 1/784 run forward
      through the 784-30-10 network, then a backward pass from each of the 10
      outputs in turn. The outputs carry the network's function of the
      inputs, and the last pass leaves its output's gradient at 1. */
  method MnistForwardBackward(fl: FloatOps) returns (e: Engine, mlp: Mlp, y: array<Value>)
    ensures e.Valid() && Shaped(mlp) && mlp.sizes == [784, 30, 10]
    ensures y.Length == 10 && IdsBelow(y[..], e.numValues)
    ensures DataOf(y[..]) == MlpOut(mlp, seq(784, _ => 1.0 / 784.0), 2)
    ensures e.Nodes()[y[9].id].grad == 1.0
  {
    e := new Engine();
    mlp, y := MnistForward(e);
    BackwardEach(e, y[..], fl);
  }

  /** The network and the forward pass of test.c's main. */
  method MnistForward(e: Engine) returns (mlp: Mlp, y: array<Value>)
    requires e.Valid()
    modifies e, e.values
    ensures e.values == old(e.values) || fresh(e.values)
    ensures e.Valid() && Shaped(mlp) && mlp.sizes == [784, 30, 10]
    ensures fresh(y) && y != e.values && y.Length == 10 && IdsBelow(y[..], e.numValues)
    ensures DataOf(y[..]) == MlpOut(mlp, seq(784, _ => 1.0 / 784.0), 2)
  {
    mlp := MlpCreate(e, [784, 30, 10]);
    ghost var b := e.numValues;
    var x := MakeInputs(e, 784, 1.0 / 784.0);
    LayersInGrows(mlp.layers, b, e.numValues);
    y := MlpForward(e, mlp, x);
    assert IdsBelow(y[..], e.numValues);
  }

  /** `for(i = 0; i < n; ++i) x[i] = make_value(d)`: n fresh leaves holding d. */
  method MakeInputs(e: Engine, n: nat, d: real) returns (x: seq<Value>)
    requires e.Valid()
    modifies e, e.values
    ensures e.Valid() && old(e.numValues) <= e.numValues
    ensures e.values == old(e.values) || fresh(e.values)
    ensures e.Nodes() == old(e.Nodes()) + x
    ensures |x| == n && IdsBelow(x, e.numValues) && DataOf(x) == seq(n, _ => d)
    ensures forall k :: 0 <= k < n ==> x[k] == Leaf(old(e.numValues) + k, d)
  {
    ghost var start := e.Nodes();
    x := [];
    for i := 0 to n
      invariant e.Valid() && old(e.numValues) <= e.numValues
      invariant e.values == old(e.values) || fresh(e.values)
      invariant e.Nodes() == start + x && e.numValues == |start| + i
      invariant |x| == i && IdsBelow(x, e.numValues)
      invariant forall k :: 0 <= k < i ==> x[k] == Leaf(|start| + k, d)
    {
      var v := e.MakeValue(d);
      x := x + [v];
    }
  }

  /** `for(i = 0; i < n; ++i) val_backward(y[i])`: a backward pass from each
      output in turn; the last one leaves its output's gradient at 1. */
  method BackwardEach(e: Engine, ys: seq<Value>, fl: FloatOps)
    requires e.Valid() && |ys| > 0 && IdsBelow(ys, e.numValues)
    modifies e.values
    ensures e.Valid() && e.Nodes()[ys[|ys| - 1].id].grad == 1.0
  {
    for i := 0 to |ys|
      invariant e.Valid()
      invariant i > 0 ==> e.Nodes()[ys[i - 1].id].grad == 1.0
    {
      var _ := e.Backward(ys[i], fl);
    }
  }
}
