/** The multilayer perceptron of nn.h on top of the engine: construction of
    neurons, layers and networks, the flattening of their parameters, and
    the forward pass that records its computation in the arena.
    `cmg_val`, `cmg_add`, `cmg_mul` and `cmg_relu` are the engine's
    `make_value`, `val_add`, `val_mul` and `val_relu`. */
module Nn {
  import opened Graph
  import opened Traversal
  import opened Engine

  /** A neuron: its bias node, its weight nodes (copies of the records
      `make_value` returned) and their number. */
  datatype Neuron = Neuron(bias: Value, weights: seq<Value>, numWeights: nat)

  datatype Layer = Layer(neurons: seq<Neuron>, numNeurons: nat)

  /** A network: its layers, the layer widths it was created with and the
      number of layers. */
  datatype Mlp = Mlp(layers: seq<Layer>, sizes: seq<nat>, numLayers: nat)

  // ---------------------------------------------------------------------
  // Shapes

  predicate NeuronOk(n: Neuron) {
    n.numWeights == |n.weights|
  }

  predicate LayerOk(l: Layer) {
    l.numNeurons == |l.neurons| && forall k :: 0 <= k < |l.neurons| ==> NeuronOk(l.neurons[k])
  }

  predicate MlpOk(m: Mlp) {
    && m.numLayers == |m.layers|
    && |m.sizes| == m.numLayers + 1
    && forall li :: 0 <= li < |m.layers| ==> LayerOk(m.layers[li])
  }

  /** A layer of `nout` neurons that each take `nin` inputs. */
  predicate LayerShaped(l: Layer, nin: nat, nout: nat) {
    && LayerOk(l)
    && l.numNeurons == nout
    && forall k :: 0 <= k < |l.neurons| ==> l.neurons[k].numWeights == nin
  }

  /** Layer `li` maps `sizes[li]` inputs to `sizes[li + 1]` outputs. */
  predicate Shaped(m: Mlp) {
    && MlpOk(m)
    && forall li :: 0 <= li < m.numLayers ==> LayerShaped(m.layers[li], m.sizes[li], m.sizes[li + 1])
  }

  /** The record `make_value(d)` appends at index `id`: a NOP leaf holding
      `d`, with zero gradient and the sentinel in both operand slots. */
  function Leaf(id: nat, d: real): Value {
    Value(id, d, 0.0, NOP, NoOperand, NoOperand)
  }

  /** The parameters `cmg_neuron_create` makes: a bias leaf holding 0 and
      weight leaves holding 0.1. */
  predicate FreshNeuron(n: Neuron) {
    && n.bias == Leaf(n.bias.id, 0.0)
    && forall k :: 0 <= k < |n.weights| ==> n.weights[k] == Leaf(n.weights[k].id, 0.1)
  }

  predicate FreshLayer(l: Layer) {
    forall k :: 0 <= k < |l.neurons| ==> FreshNeuron(l.neurons[k])
  }

  // Node ids below `b`, i.e. nodes of an arena holding `b` nodes.

  predicate IdsBelow(xs: seq<Value>, b: nat) {
    forall k :: 0 <= k < |xs| ==> xs[k].id < b
  }

  predicate NeuronIn(n: Neuron, b: nat) {
    n.bias.id < b && IdsBelow(n.weights, b)
  }

  predicate LayerIn(l: Layer, b: nat) {
    forall k :: 0 <= k < |l.neurons| ==> NeuronIn(l.neurons[k], b)
  }

  predicate LayersIn(ls: seq<Layer>, b: nat) {
    forall li :: 0 <= li < |ls| ==> LayerIn(ls[li], b)
  }

  predicate MlpIn(m: Mlp, b: nat) {
    LayersIn(m.layers, b)
  }

  lemma LayersInGrows(ls: seq<Layer>, b: nat, b': nat)
    requires LayersIn(ls, b) && b <= b'
    ensures LayersIn(ls, b')
  {
    forall li | 0 <= li < |ls| ensures LayerIn(ls[li], b') {
      assert LayerIn(ls[li], b);
      forall k | 0 <= k < |ls[li].neurons| ensures NeuronIn(ls[li].neurons[k], b') {
        assert NeuronIn(ls[li].neurons[k], b);
      }
    }
  }

  // ---------------------------------------------------------------------
  // Construction

  /** The nodes a neuron's creation appends: the bias, then the weights. */
  function NeuronNodes(n: Neuron): seq<Value> {
    [n.bias] + n.weights
  }

  function LayerNodes(ns: seq<Neuron>): seq<Value>
    decreases |ns|
  {
    if ns == [] then [] else LayerNodes(ns[..|ns| - 1]) + NeuronNodes(ns[|ns| - 1])
  }

  function MlpNodes(ls: seq<Layer>): seq<Value>
    decreases |ls|
  {
    if ls == [] then [] else MlpNodes(ls[..|ls| - 1]) + LayerNodes(ls[|ls| - 1].neurons)
  }

  lemma AppendAssoc(a: seq<Value>, b: seq<Value>, c: seq<Value>)
    ensures (a + b) + c == a + (b + c)
  {
  }

  lemma LayerNodesSnoc(ns: seq<Neuron>, n: Neuron)
    ensures LayerNodes(ns + [n]) == LayerNodes(ns) + NeuronNodes(n)
  {
    assert (ns + [n])[..|ns|] == ns;
  }

  lemma MlpNodesSnoc(ls: seq<Layer>, l: Layer)
    ensures MlpNodes(ls + [l]) == MlpNodes(ls) + LayerNodes(l.neurons)
  {
    assert (ls + [l])[..|ls|] == ls;
  }

  /** `cmg_neuron_create`: a bias node holding 0, then `num_inputs` weight
      nodes holding 0.1, appended to the arena in that order. */
  method NeuronCreate(e: Engine, numInputs: nat) returns (neuron: Neuron)
    requires e.Valid()
    modifies e, e.values
    ensures e.Valid() && old(e.numValues) <= e.numValues
    ensures e.values == old(e.values) || fresh(e.values)
    ensures NeuronOk(neuron) && neuron.numWeights == numInputs && FreshNeuron(neuron)
    ensures e.Nodes() == old(e.Nodes()) + NeuronNodes(neuron)
    ensures NeuronIn(neuron, e.numValues)
  {
    var bias := e.MakeValue(0.0);
    ghost var start := e.Nodes();
    var weights := new Value[numInputs](_ => Blank);
    ghost var ws: seq<Value> := [];
    for i := 0 to numInputs
      invariant e.Valid() && weights != e.values && old(e.numValues) < e.numValues
      invariant e.values == old(e.values) || fresh(e.values)
      invariant weights[..i] == ws && e.Nodes() == start + ws
      invariant bias == Leaf(bias.id, 0.0) && bias.id < |start| && e.numValues == |start| + i
      invariant forall k :: 0 <= k < i ==> ws[k] == Leaf(|start| + k, 0.1)
    {
      var w := e.MakeValue(0.1);
      weights[i] := w;
      AppendAssoc(start, ws, [w]);
      ws := ws + [w];
    }
    neuron := Neuron(bias, weights[..], numInputs);
    assert weights[..numInputs] == weights[..];
  }

  /** `cmg_layer_create`: `num_outputs` neurons, each created with
      `num_inputs` weights, one after the other. */
  method LayerCreate(e: Engine, numInputs: nat, numOutputs: nat) returns (layer: Layer)
    requires e.Valid()
    modifies e, e.values
    ensures e.Valid() && old(e.numValues) <= e.numValues
    ensures e.values == old(e.values) || fresh(e.values)
    ensures LayerShaped(layer, numInputs, numOutputs) && FreshLayer(layer)
    ensures e.Nodes() == old(e.Nodes()) + LayerNodes(layer.neurons)
    ensures LayerIn(layer, e.numValues)
  {
    var neurons := new Neuron[numOutputs](_ => Neuron(Blank, [], 0));
    for i := 0 to numOutputs
      invariant e.Valid() && old(e.numValues) <= e.numValues
      invariant e.values == old(e.values) || fresh(e.values)
      invariant e.Nodes() == old(e.Nodes()) + LayerNodes(neurons[..i])
      invariant CreatedNeurons(neurons[..i], numInputs, e.numValues)
    {
      ghost var pre := neurons[..i];
      ghost var before := e.numValues;
      var n := NeuronCreate(e, numInputs);
      CreatedNeuronsSnoc(pre, n, numInputs, before, e.numValues);
      neurons[i] := n;
      assert neurons[..i + 1] == pre + [n];
      LayerNodesSnoc(pre, n);
      AppendAssoc(old(e.Nodes()), LayerNodes(pre), NeuronNodes(n));
    }
    assert neurons[..numOutputs] == neurons[..];
    layer := Layer(neurons[..], numOutputs);
  }

  /** Neurons that each take `nin` inputs, hold their initial parameters and
      live in an arena of `b` nodes. */
  predicate CreatedNeurons(ns: seq<Neuron>, nin: nat, b: nat) {
    forall k :: 0 <= k < |ns| ==>
      (NeuronOk(ns[k]) && ns[k].numWeights == nin && FreshNeuron(ns[k]) && NeuronIn(ns[k], b))
  }

  lemma CreatedNeuronsSnoc(ns: seq<Neuron>, n: Neuron, nin: nat, b: nat, b': nat)
    requires CreatedNeurons(ns, nin, b) && b <= b'
    requires NeuronOk(n) && n.numWeights == nin && FreshNeuron(n) && NeuronIn(n, b')
    ensures CreatedNeurons(ns + [n], nin, b')
  {
    forall k | 0 <= k < |ns| ensures NeuronIn(ns[k], b') {
      assert NeuronIn(ns[k], b);
    }
  }

  /** `cmg_mlp_create`: `num_sizes - 1` layers, layer `li` with `sizes[li]`
      inputs and `sizes[li + 1]` neurons, and a copy of `sizes`. The source
      computes `num_sizes - 1` in unsigned arithmetic, so callers must pass
      at least one size. */
  method MlpCreate(e: Engine, sizes: seq<nat>) returns (mlp: Mlp)
    requires e.Valid() && |sizes| >= 1
    modifies e, e.values
    ensures e.Valid() && old(e.numValues) <= e.numValues
    ensures e.values == old(e.values) || fresh(e.values)
    ensures Shaped(mlp) && mlp.numLayers == |sizes| - 1 && mlp.sizes == sizes
    ensures forall li :: 0 <= li < mlp.numLayers ==> FreshLayer(mlp.layers[li])
    ensures e.Nodes() == old(e.Nodes()) + MlpNodes(mlp.layers)
    ensures MlpIn(mlp, e.numValues)
  {
    var numLayers := |sizes| - 1;
    var layers := new Layer[numLayers](_ => Layer([], 0));
    for li := 0 to numLayers
      invariant e.Valid() && old(e.numValues) <= e.numValues
      invariant e.values == old(e.values) || fresh(e.values)
      invariant e.Nodes() == old(e.Nodes()) + MlpNodes(layers[..li])
      invariant CreatedLayers(layers[..li], sizes, e.numValues)
    {
      ghost var before := e.numValues;
      ghost var pre := layers[..li];
      var layer := LayerCreate(e, sizes[li], sizes[li + 1]);
      layers[li] := layer;
      assert layers[..li + 1] == pre + [layer];
      MlpNodesSnoc(pre, layer);
      AppendAssoc(old(e.Nodes()), MlpNodes(pre), LayerNodes(layer.neurons));
      CreatedLayersSnoc(pre, layer, sizes, before, e.numValues);
    }
    assert layers[..numLayers] == layers[..];
    mlp := Mlp(layers[..], sizes, numLayers);
    CreatedShaped(mlp, e.numValues);
  }

  /** Layers `0..|ls|` have the widths `sizes` asks for and their initial
      parameters. */
  predicate CreatedLayers(ls: seq<Layer>, sizes: seq<nat>, b: nat) {
    && |ls| < |sizes|
    && (forall k :: 0 <= k < |ls| ==> LayerShaped(ls[k], sizes[k], sizes[k + 1]) && FreshLayer(ls[k]))
    && LayersIn(ls, b)
  }

  lemma CreatedLayersSnoc(ls: seq<Layer>, l: Layer, sizes: seq<nat>, b: nat, b': nat)
    requires CreatedLayers(ls, sizes, b) && |ls| + 1 < |sizes| && b <= b'
    requires LayerShaped(l, sizes[|ls|], sizes[|ls| + 1]) && FreshLayer(l) && LayerIn(l, b')
    ensures CreatedLayers(ls + [l], sizes, b')
  {
    LayersInGrows(ls, b, b');
  }

  lemma CreatedShaped(m: Mlp, b: nat)
    requires CreatedLayers(m.layers, m.sizes, b) && m.numLayers == |m.layers| && |m.sizes| == m.numLayers + 1
    ensures Shaped(m)
    ensures forall li :: 0 <= li < m.numLayers ==> FreshLayer(m.layers[li])
    ensures MlpIn(m, b)
  {
    forall li | 0 <= li < |m.layers| ensures LayerOk(m.layers[li]) {
      assert LayerShaped(m.layers[li], m.sizes[li], m.sizes[li + 1]);
    }
  }

  // ---------------------------------------------------------------------
  // Parameters

  /** The parameter block of one neuron: its weights in order, then its bias. */
  function NeuronParams(n: Neuron): seq<Value> {
    n.weights + [n.bias]
  }

  /** The parameters of a layer: the blocks of its neurons in order. */
  function LayerParamSeq(ns: seq<Neuron>): seq<Value>
    decreases |ns|
  {
    if ns == [] then [] else LayerParamSeq(ns[..|ns| - 1]) + NeuronParams(ns[|ns| - 1])
  }

  /** The count `cmg_layer_params` reports: each neuron's `num_weights + 1`. */
  function ParamCount(ns: seq<Neuron>): nat
    decreases |ns|
  {
    if ns == [] then 0 else ParamCount(ns[..|ns| - 1]) + ns[|ns| - 1].numWeights + 1
  }

  /** The parameters of a network: the layers' parameter blocks in order. */
  function MlpParamSeq(ls: seq<Layer>): seq<Value>
    decreases |ls|
  {
    if ls == [] then [] else MlpParamSeq(ls[..|ls| - 1]) + LayerParamSeq(ls[|ls| - 1].neurons)
  }

  function MlpParamCount(ls: seq<Layer>): nat
    decreases |ls|
  {
    if ls == [] then 0 else MlpParamCount(ls[..|ls| - 1]) + ParamCount(ls[|ls| - 1].neurons)
  }

  /** The parameters of two runs of neurons are those of the first run
      followed by those of the second. */
  lemma {:induction false} ParamSeqAppend(a: seq<Neuron>, b: seq<Neuron>)
    ensures LayerParamSeq(a + b) == LayerParamSeq(a) + LayerParamSeq(b)
    decreases |b|
  {
    if b != [] {
      var b' := b[..|b| - 1];
      ParamSeqAppend(a, b');
      assert (a + b)[..|a + b| - 1] == a + b';
      assert (a + b)[|a + b| - 1] == b[|b| - 1];
    } else {
      assert a + b == a;
    }
  }

  /** The count `cmg_layer_params` reports is the length of the array it fills. */
  lemma {:induction false} ParamCountIsLength(ns: seq<Neuron>)
    requires forall k :: 0 <= k < |ns| ==> NeuronOk(ns[k])
    ensures |LayerParamSeq(ns)| == ParamCount(ns)
    decreases |ns|
  {
    if ns != [] {
      ParamCountIsLength(ns[..|ns| - 1]);
      assert NeuronOk(ns[|ns| - 1]);
    }
  }

  lemma {:induction false} MlpParamCountIsLength(ls: seq<Layer>)
    requires forall li :: 0 <= li < |ls| ==> LayerOk(ls[li])
    ensures |MlpParamSeq(ls)| == MlpParamCount(ls)
    decreases |ls|
  {
    if ls != [] {
      MlpParamCountIsLength(ls[..|ls| - 1]);
      assert LayerOk(ls[|ls| - 1]);
      ParamCountIsLength(ls[|ls| - 1].neurons);
    }
  }

  /** The layout of a layer's parameter array: weight `wi` of neuron `ni`
      sits at offset `ParamCount(ns[..ni]) + wi` and its bias right after
      the weights. */
  lemma {:induction false} LayerParamLayout(ns: seq<Neuron>, ni: nat)
    requires forall k :: 0 <= k < |ns| ==> NeuronOk(ns[k])
    requires ni < |ns|
    ensures var off := ParamCount(ns[..ni]);
            && off + |ns[ni].weights| < |LayerParamSeq(ns)|
            && (forall wi :: 0 <= wi < |ns[ni].weights| ==> LayerParamSeq(ns)[off + wi] == ns[ni].weights[wi])
            && LayerParamSeq(ns)[off + |ns[ni].weights|] == ns[ni].bias
    decreases |ns|
  {
    if ni == |ns| - 1 {
      LastNeuronLayout(ns);
    } else {
      var init := ns[..|ns| - 1];
      LayerParamLayout(init, ni);
      assert init[..ni] == ns[..ni];
      assert init[ni] == ns[ni];
      ParamSeqKeepsPrefix(ns);
    }
  }

  /** The last neuron's block sits at the end of the layer's parameters. */
  lemma LastNeuronLayout(ns: seq<Neuron>)
    requires forall k :: 0 <= k < |ns| ==> NeuronOk(ns[k])
    requires |ns| > 0
    ensures var ni := |ns| - 1;
            var off := ParamCount(ns[..ni]);
            && off + |ns[ni].weights| < |LayerParamSeq(ns)|
            && (forall wi :: 0 <= wi < |ns[ni].weights| ==> LayerParamSeq(ns)[off + wi] == ns[ni].weights[wi])
            && LayerParamSeq(ns)[off + |ns[ni].weights|] == ns[ni].bias
  {
    var init := ns[..|ns| - 1];
    ParamCountIsLength(init);
    assert LayerParamSeq(ns) == LayerParamSeq(init) + NeuronParams(ns[|ns| - 1]);
  }

  /** Adding a neuron leaves the earlier parameters where they are. */
  lemma ParamSeqKeepsPrefix(ns: seq<Neuron>)
    requires |ns| > 0
    ensures var head := LayerParamSeq(ns[..|ns| - 1]);
            && |head| <= |LayerParamSeq(ns)|
            && forall j :: 0 <= j < |head| ==> LayerParamSeq(ns)[j] == head[j]
  {
    assert LayerParamSeq(ns) == LayerParamSeq(ns[..|ns| - 1]) + NeuronParams(ns[|ns| - 1]);
  }

  /** A layer of neurons that all take `nin` inputs has `|ns| * (nin + 1)`
      parameters. */
  lemma {:induction false} UniformLayerCount(ns: seq<Neuron>, nin: nat)
    requires forall k :: 0 <= k < |ns| ==> ns[k].numWeights == nin
    ensures ParamCount(ns) == |ns| * (nin + 1)
    decreases |ns|
  {
    if ns != [] {
      UniformLayerCount(ns[..|ns| - 1], nin);
    }
  }

  /** The parameter count a network of widths `sizes` has:
      the sum of `sizes[li + 1] * (sizes[li] + 1)`. */
  function ShapeParamCount(sizes: seq<nat>): nat
    decreases |sizes|
  {
    if |sizes| < 2 then 0
    else ShapeParamCount(sizes[..|sizes| - 1]) + sizes[|sizes| - 1] * (sizes[|sizes| - 2] + 1)
  }

  /** A network shaped by `sizes` has `ShapeParamCount(sizes)` parameters. */
  lemma ShapedParamCount(m: Mlp)
    requires Shaped(m)
    ensures MlpParamCount(m.layers) == ShapeParamCount(m.sizes)
  {
    ShapedPrefixCount(m, m.numLayers);
    assert m.layers[..m.numLayers] == m.layers;
    assert m.sizes[..m.numLayers + 1] == m.sizes;
  }

  lemma {:induction false} ShapedPrefixCount(m: Mlp, k: nat)
    requires Shaped(m) && k <= m.numLayers
    ensures MlpParamCount(m.layers[..k]) == ShapeParamCount(m.sizes[..k + 1])
    decreases k
  {
    if k > 0 {
      ShapedPrefixCount(m, k - 1);
      assert m.layers[..k][..k - 1] == m.layers[..k - 1];
      assert m.sizes[..k + 1][..k] == m.sizes[..k];
      assert LayerShaped(m.layers[k - 1], m.sizes[k - 1], m.sizes[k]);
      UniformLayerCount(m.layers[k - 1].neurons, m.sizes[k - 1]);
    }
  }

  /** The network of widths 784, 30, 10 has 30 * 785 + 10 * 31 = 23860
      parameters. */
  lemma MnistParamCount(m: Mlp)
    requires Shaped(m) && m.sizes == [784, 30, 10]
    ensures MlpParamCount(m.layers) == 23860
  {
    ShapedParamCount(m);
    assert [784, 30, 10][..2] == [784, 30];
    assert [784, 30][..1] == [784];
  }

  /** Parameter collection lists exactly the nodes creation appended, each
      as often, though in a different order (creation puts each bias first). */
  lemma {:induction false} ParamsAreCreatedNodes(ns: seq<Neuron>)
    ensures multiset(LayerParamSeq(ns)) == multiset(LayerNodes(ns))
    decreases |ns|
  {
    if ns != [] {
      ParamsAreCreatedNodes(ns[..|ns| - 1]);
      var n := ns[|ns| - 1];
      assert multiset(NeuronParams(n)) == multiset(NeuronNodes(n));
    }
  }

  lemma {:induction false} MlpParamsAreCreatedNodes(ls: seq<Layer>)
    ensures multiset(MlpParamSeq(ls)) == multiset(MlpNodes(ls))
    decreases |ls|
  {
    if ls != [] {
      MlpParamsAreCreatedNodes(ls[..|ls| - 1]);
      ParamsAreCreatedNodes(ls[|ls| - 1].neurons);
    }
  }

  /** `cmg_layer_params`: count the parameters, then fill an array of that
      size neuron by neuron, weights then bias, with a running index. */
  method LayerParams(layer: Layer) returns (params: array<Value>, numParams: nat)
    requires LayerOk(layer)
    ensures fresh(params)
    ensures numParams == params.Length == ParamCount(layer.neurons)
    ensures params[..] == LayerParamSeq(layer.neurons)
  {
    var ns := layer.neurons;
    var count := 0;
    for ni := 0 to layer.numNeurons
      invariant count == ParamCount(ns[..ni])
    {
      PrefixStep(ns, ni);
      count := count + ns[ni].numWeights + 1;
    }
    assert ns[..layer.numNeurons] == ns;
    numParams := count;
    params := new Value[count](_ => Blank);
    var i := 0;
    for ni := 0 to layer.numNeurons
      invariant i == ParamCount(ns[..ni]) <= count
      invariant params[..i] == LayerParamSeq(ns[..ni])
    {
      PrefixStep(ns, ni);
      PrefixBelow(ns, ni + 1);
      assert NeuronOk(ns[ni]);
      i := FillNeuron(params, i, ns[ni]);
    }
    assert params[..count] == params[..];
  }

  /** One neuron's turn in `cmg_layer_params`: its weights, then its bias,
      written from index `i` on. */
  method FillNeuron(params: array<Value>, i: nat, n: Neuron) returns (next: nat)
    requires NeuronOk(n) && i + n.numWeights + 1 <= params.Length
    modifies params
    ensures next == i + n.numWeights + 1
    ensures params[..next] == old(params[..i]) + NeuronParams(n)
  {
    next := i;
    for wi := 0 to n.numWeights
      invariant next == i + wi
      invariant params[..next] == old(params[..i]) + n.weights[..wi]
    {
      params[next] := n.weights[wi];
      next := next + 1;
      assert n.weights[..wi + 1] == n.weights[..wi] + [n.weights[wi]];
    }
    params[next] := n.bias;
    next := next + 1;
    assert n.weights[..n.numWeights] == n.weights;
  }

  lemma PrefixStep(ns: seq<Neuron>, ni: nat)
    requires ni < |ns|
    ensures ParamCount(ns[..ni + 1]) == ParamCount(ns[..ni]) + ns[ni].numWeights + 1
    ensures LayerParamSeq(ns[..ni + 1]) == LayerParamSeq(ns[..ni]) + NeuronParams(ns[ni])
  {
    assert ns[..ni + 1][..ni] == ns[..ni];
  }

  lemma {:induction false} PrefixBelow(ns: seq<Neuron>, k: nat)
    requires k <= |ns|
    ensures ParamCount(ns[..k]) <= ParamCount(ns)
    decreases |ns| - k
  {
    if k < |ns| {
      PrefixBelow(ns, k + 1);
      PrefixStep(ns, k);
    } else {
      assert ns[..k] == ns;
    }
  }

  /** `cmg_mlp_params`: grow the result by each layer's block in turn
      (`realloc` plus `memcpy`). */
  method MlpParams(mlp: Mlp) returns (params: array<Value>, numParams: nat)
    requires MlpOk(mlp)
    ensures fresh(params)
    ensures numParams == params.Length == MlpParamCount(mlp.layers)
    ensures params[..] == MlpParamSeq(mlp.layers)
  {
    var ls := mlp.layers;
    params := new Value[0];
    numParams := 0;
    for li := 0 to mlp.numLayers
      invariant fresh(params)
      invariant numParams == params.Length == MlpParamCount(ls[..li])
      invariant params[..] == MlpParamSeq(ls[..li])
    {
      var layerParams, np := LayerParams(ls[li]);
      params := Append(params, layerParams);
      numParams := numParams + np;
      assert ls[..li + 1][..li] == ls[..li];
    }
    assert ls[..mlp.numLayers] == ls;
  }

  /** `realloc` to the combined size followed by `memcpy` of the new block. */
  method Append(a: array<Value>, b: array<Value>) returns (c: array<Value>)
    ensures fresh(c) && c[..] == a[..] + b[..]
  {
    c := new Value[a.Length + b.Length](_ => Blank);
    forall k | 0 <= k < a.Length {
      c[k] := a[k];
    }
    forall k | 0 <= k < b.Length {
      c[a.Length + k] := b[k];
    }
    assert c[..] == a[..] + b[..];
  }

  // ---------------------------------------------------------------------
  // Forward pass

  function DataOf(xs: seq<Value>): (r: seq<real>)
    ensures |r| == |xs| && forall k :: 0 <= k < |xs| ==> r[k] == xs[k].data
  {
    seq(|xs|, k requires 0 <= k < |xs| => xs[k].data)
  }

  /** `w[0]*x[0] + ... + w[k-1]*x[k-1]`, accumulated left to right from 0. */
  function Dot(ws: seq<Value>, xd: seq<real>, k: nat): real
    requires k <= |ws| && k <= |xd|
  {
    if k == 0 then 0.0 else Dot(ws, xd, k - 1) + ws[k - 1].data * xd[k - 1]
  }

  lemma DotStep(ws: seq<Value>, xd: seq<real>, k: nat)
    requires k < |ws| && k < |xd|
    ensures Dot(ws, xd, k + 1) == Dot(ws, xd, k) + ws[k].data * xd[k]
  {
  }

  function Sum(xd: seq<real>, k: nat): real
    requires k <= |xd|
  {
    if k == 0 then 0.0 else Sum(xd, k - 1) + xd[k - 1]
  }

  /** The value a neuron computes from inputs `xd`. */
  function NeuronOut(n: Neuron, xd: seq<real>): real
    requires NeuronOk(n) && n.numWeights <= |xd|
  {
    Relu(Dot(n.weights, xd, n.numWeights) + n.bias.data)
  }

  /** The layer's outputs, neuron by neuron. */
  function LayerOut(l: Layer, xd: seq<real>): (r: seq<real>)
    requires LayerOk(l) && forall k :: 0 <= k < |l.neurons| ==> l.neurons[k].numWeights <= |xd|
    ensures |r| == l.numNeurons
  {
    seq(l.numNeurons, ni requires 0 <= ni < l.numNeurons => NeuronOut(l.neurons[ni], xd))
  }

  /** The outputs of the first `k` layers applied in turn to `xd`. */
  function MlpOut(m: Mlp, xd: seq<real>, k: nat): (r: seq<real>)
    requires Shaped(m) && 1 <= k <= m.numLayers && m.sizes[0] <= |xd|
    ensures |r| == m.sizes[k]
    decreases k
  {
    if k == 1 then
      assert LayerShaped(m.layers[0], m.sizes[0], m.sizes[1]);
      LayerOut(m.layers[0], xd)
    else
      var prev := MlpOut(m, xd, k - 1);
      assert LayerShaped(m.layers[k - 1], m.sizes[k - 1], m.sizes[k]);
      LayerOut(m.layers[k - 1], prev)
  }

  /** Every output of a layer is non-negative: each neuron ends in relu. */
  lemma LayerOutNonNegative(l: Layer, xd: seq<real>)
    requires LayerOk(l) && forall k :: 0 <= k < |l.neurons| ==> l.neurons[k].numWeights <= |xd|
    ensures forall ni :: 0 <= ni < l.numNeurons ==> LayerOut(l, xd)[ni] >= 0.0
  {
  }

  lemma {:induction false} UniformDot(ws: seq<Value>, xd: seq<real>, k: nat, c: real)
    requires k <= |ws| && k <= |xd|
    requires forall j :: 0 <= j < |ws| ==> ws[j].data == c
    ensures Dot(ws, xd, k) == c * Sum(xd, k)
    decreases k
  {
    if k > 0 {
      UniformDot(ws, xd, k - 1, c);
    }
  }

  /** A freshly created neuron computes `relu(0.1 * (x[0] + ... + x[n-1]))`. */
  lemma FreshNeuronOut(n: Neuron, xd: seq<real>)
    requires NeuronOk(n) && FreshNeuron(n) && n.numWeights <= |xd|
    ensures NeuronOut(n, xd) == Relu(0.1 * Sum(xd, n.numWeights))
  {
    UniformDot(n.weights, xd, n.numWeights, 0.1);
  }

  /** The records the first `k` turns of the loop of `cmg_neuron_forward`
      leave in arena `s` after the 0 leaf at index `base`. Turn `j` appends
      the MUL node `w[j] * x[j]` at `base + 2j + 1`, then the ADD node of the
      running sum (node `base + 2j`) and that product at `base + 2j + 2`. */
  predicate TermsAt(s: seq<Value>, ws: seq<Value>, x: seq<Value>, base: nat, k: nat)
    requires k <= |ws| && k <= |x|
  {
    base + 2 * k < |s| && forall j :: 0 <= j < k ==> TermAt(s, ws, x, base, j)
  }

  /** The two records of turn `j`. */
  predicate TermAt(s: seq<Value>, ws: seq<Value>, x: seq<Value>, base: nat, j: nat)
    requires j < |ws| && j < |x|
  {
    && base + 2 * j + 2 < |s|
    && s[base + 2 * j + 1] == Value(base + 2 * j + 1, ws[j].data * x[j].data, 0.0, MUL, ws[j].id, x[j].id)
    && s[base + 2 * j + 2] == Value(base + 2 * j + 2, Dot(ws, DataOf(x), j + 1), 0.0, ADD, base + 2 * j, base + 2 * j + 1)
  }

  /** The `2 * num_weights + 3` records `cmg_neuron_forward` writes, starting
      at index `base` of arena `s`: the 0 leaf, the MUL and ADD node of every
      weight, the ADD node of the bias and the RELU node, which is the
      result. */
  predicate NeuronRecordsAt(s: seq<Value>, n: Neuron, x: seq<Value>, base: nat)
    requires NeuronOk(n) && n.numWeights <= |x|
  {
    var nw := n.numWeights;
    var sum := Dot(n.weights, DataOf(x), nw) + n.bias.data;
    && base + 2 * nw + 3 <= |s|
    && s[base] == Leaf(base, 0.0)
    && TermsAt(s, n.weights, x, base, nw)
    && s[base + 2 * nw + 1] == Value(base + 2 * nw + 1, sum, 0.0, ADD, base + 2 * nw, n.bias.id)
    && s[base + 2 * nw + 2] == Value(base + 2 * nw + 2, Relu(sum), 0.0, RELU, base + 2 * nw + 1, NoOperand)
  }

  lemma TermsAtGrows(s: seq<Value>, s': seq<Value>, ws: seq<Value>, x: seq<Value>, base: nat, k: nat)
    requires k <= |ws| && k <= |x|
    requires TermsAt(s, ws, x, base, k) && s <= s'
    ensures TermsAt(s', ws, x, base, k)
  {
    forall j | 0 <= j < k ensures TermAt(s', ws, x, base, j) {
      assert TermAt(s, ws, x, base, j);
      assert s'[base + 2 * j + 1] == s[base + 2 * j + 1] && s'[base + 2 * j + 2] == s[base + 2 * j + 2];
    }
  }

  /** The records of a neuron stay where they are while the arena grows. */
  lemma NeuronRecordsGrow(s: seq<Value>, s': seq<Value>, n: Neuron, x: seq<Value>, base: nat)
    requires NeuronOk(n) && n.numWeights <= |x|
    requires NeuronRecordsAt(s, n, x, base) && s <= s'
    ensures NeuronRecordsAt(s', n, x, base)
  {
    TermsAtGrows(s, s', n.weights, x, base, n.numWeights);
    assert s'[base + 2 * n.numWeights + 1] == s[base + 2 * n.numWeights + 1];
    assert s'[base + 2 * n.numWeights + 2] == s[base + 2 * n.numWeights + 2];
  }

  lemma MulLeft(a: real, b: real, c: real)
    requires b == c
    ensures a * b == a * c
  {
  }

  /** Adding turn wi's product to the running sum gives the sum of the
      first wi + 1 products. */
  lemma DotAddTerm(ws: seq<Value>, x: seq<Value>, wi: nat, yd: real, md: real)
    requires wi < |ws| && wi < |x|
    requires yd == Dot(ws, DataOf(x), wi) && md == ws[wi].data * x[wi].data
    ensures yd + md == Dot(ws, DataOf(x), wi + 1)
  {
    var xd := DataOf(x);
    DotStep(ws, xd, wi);
    assert xd[wi] == x[wi].data;
    MulLeft(ws[wi].data, xd[wi], x[wi].data);
  }

  lemma TermsAtSnoc(s: seq<Value>, ws: seq<Value>, x: seq<Value>, base: nat, k: nat)
    requires k < |ws| && k < |x|
    requires TermsAt(s, ws, x, base, k) && TermAt(s, ws, x, base, k)
    ensures TermsAt(s, ws, x, base, k + 1)
  {
    forall j | 0 <= j < k + 1 ensures TermAt(s, ws, x, base, j) {
      if j < k {
        assert TermAt(s, ws, x, base, j);
      }
    }
  }

  /** One turn of the loop adds its MUL and ADD records to the terms. */
  lemma TermsAtStep(s: seq<Value>, s': seq<Value>, ws: seq<Value>, x: seq<Value>, base: nat, wi: nat, y: Value, m: Value, a: Value)
    requires wi < |ws| && wi < |x|
    requires TermsAt(s, ws, x, base, wi) && |s| == base + 2 * wi + 1
    requires y.id == base + 2 * wi && y.data == Dot(ws, DataOf(x), wi)
    requires m == Value(|s|, ws[wi].data * x[wi].data, 0.0, MUL, ws[wi].id, x[wi].id)
    requires a == Value(|s| + 1, y.data + m.data, 0.0, ADD, y.id, m.id)
    requires s' == s + [m, a]
    ensures TermsAt(s', ws, x, base, wi + 1)
    ensures a.data == Dot(ws, DataOf(x), wi + 1)
  {
    DotAddTerm(ws, x, wi, y.data, m.data);
    TermsAtGrows(s, s', ws, x, base, wi);
    assert s'[|s|] == m && s'[|s| + 1] == a;
    assert TermAt(s', ws, x, base, wi);
    TermsAtSnoc(s', ws, x, base, wi);
  }

  /** The operand edges of the first `k` turns of the neuron's loop, laid
      out from `base` in arena `t`: each running-sum ADD node names the
      previous running sum and its product, and each MUL node names its
      weight and its input. */
  ghost predicate TermEdges(t: seq<Value>, base: nat, ws: seq<Value>, x: seq<Value>, k: nat)
    requires k <= |ws| && k <= |x|
  {
    forall j :: 0 <= j < k ==>
      && IsEdge(t, base + 2 * j + 2, base + 2 * j)
      && IsEdge(t, base + 2 * j + 2, base + 2 * j + 1)
      && IsEdge(t, base + 2 * j + 1, ws[j].id)
      && IsEdge(t, base + 2 * j + 1, x[j].id)
  }

  lemma NeuronEdges(t: seq<Value>, n: Neuron, x: seq<Value>, base: nat)
    requires NeuronOk(n) && n.numWeights <= |x| && NeuronRecordsAt(t, n, x, base)
    ensures var top := base + 2 * n.numWeights + 2;
      && TermEdges(t, base, n.weights, x, n.numWeights)
      && IsEdge(t, top, top - 1) && IsEdge(t, top - 1, top - 2) && IsEdge(t, top - 1, n.bias.id)
  {
    forall j | 0 <= j < n.numWeights
      ensures && IsEdge(t, base + 2 * j + 2, base + 2 * j)
              && IsEdge(t, base + 2 * j + 2, base + 2 * j + 1)
              && IsEdge(t, base + 2 * j + 1, n.weights[j].id)
              && IsEdge(t, base + 2 * j + 1, x[j].id)
    {
      assert TermAt(t, n.weights, x, base, j);
      assert t[base + 2 * j + 1].opId0 == n.weights[j].id && t[base + 2 * j + 1].opId1 == x[j].id;
      assert t[base + 2 * j + 2].opId0 == base + 2 * j && t[base + 2 * j + 2].opId1 == base + 2 * j + 1;
    }
  }

  /** Where a neuron's records lie in the arena, its result reaches every
      weight, the bias and every input the neuron reads along recorded
      operands, so `val_backward` on the result takes all of them. */
  lemma NeuronReaches(t: seq<Value>, n: Neuron, x: seq<Value>, base: nat)
    requires NeuronOk(n) && n.numWeights <= |x| && NeuronRecordsAt(t, n, x, base)
    ensures var top := base + 2 * n.numWeights + 2;
      && Reachable(t, top, n.bias.id)
      && forall j :: 0 <= j < n.numWeights ==> Reachable(t, top, n.weights[j].id) && Reachable(t, top, x[j].id)
  {
    var top := base + 2 * n.numWeights + 2;
    NeuronEdges(t, n, x, base);
    ReachableSelf(t, top);
    ReachStep(t, top, top, top - 1);
    ReachStep(t, top, top - 1, n.bias.id);
    ReachStep(t, top, top - 1, top - 2);
    forall j | 0 <= j < n.numWeights ensures Reachable(t, top, n.weights[j].id) && Reachable(t, top, x[j].id) {
      SumNodesReach(t, base, n.weights, x, top, n.numWeights, j);
    }
  }

  /** The running-sum node after `k` turns reaches the weight and the input
      of each turn `i` before it. */
  lemma {:induction false} SumNodesReach(t: seq<Value>, base: nat, ws: seq<Value>, x: seq<Value>, top: int, k: nat, i: nat)
    requires i < k <= |ws| && k <= |x|
    requires TermEdges(t, base, ws, x, k) && Reachable(t, top, base + 2 * k)
    ensures Reachable(t, top, ws[i].id) && Reachable(t, top, x[i].id)
    decreases k
  {
    var j := k - 1;
    assert IsEdge(t, base + 2 * k, base + 2 * j);
    if i == j {
      TurnReach(t, top, base + 2 * k, base + 2 * j, base + 2 * j + 1, ws[i].id, x[i].id);
    } else {
      ReachStep(t, top, base + 2 * k, base + 2 * j);
      assert TermEdges(t, base, ws, x, j);
      SumNodesReach(t, base, ws, x, top, j, i);
    }
  }

  /** The running sum `a` of one turn reaches the previous sum, and through
      the turn's product `m` its weight `w` and input `v`. */
  lemma TurnReach(t: seq<Value>, top: int, a: int, prev: int, m: int, w: int, v: int)
    requires Reachable(t, top, a) && IsEdge(t, a, prev) && IsEdge(t, a, m)
    requires IsEdge(t, m, w) && IsEdge(t, m, v)
    ensures Reachable(t, top, prev) && Reachable(t, top, w) && Reachable(t, top, v)
  {
    ReachStep(t, top, a, prev);
    ReachStep(t, top, a, m);
    ReachStep(t, top, m, w);
    ReachStep(t, top, m, v);
  }

  /** `cmg_neuron_forward`: a 0 leaf, then one MUL and one ADD node per
      weight, an ADD node for the bias and a RELU node, in that order. The
      result is a copy of the last record written. */
  method NeuronForward(e: Engine, n: Neuron, x: seq<Value>) returns (r: Value)
    requires e.Valid() && NeuronOk(n) && n.numWeights <= |x|
    requires NeuronIn(n, e.numValues) && IdsBelow(x, e.numValues)
    modifies e, e.values
    ensures e.Valid() && old(e.Nodes()) <= e.Nodes()
    ensures e.values == old(e.values) || fresh(e.values)
    ensures e.numValues == old(e.numValues) + 2 * n.numWeights + 3
    ensures NeuronRecordsAt(e.Nodes(), n, x, old(e.numValues))
    ensures r.id == e.numValues - 1 && e.Nodes()[r.id] == r && NeuronResultAt(e.Nodes(), n, x, r)
    ensures r.op == RELU && r.data == NeuronOut(n, DataOf(x))
  {
    ghost var base := e.numValues;
    var y := WeightedSum(e, n.weights, x);
    ghost var pre := e.Nodes();
    var a := e.ValAdd(y, n.bias);
    ghost var mid := e.Nodes();
    r := e.ValRelu(a);
    NeuronRecordsClose(pre, mid, e.Nodes(), n, x, base, y, a, r);
  }

  /** The first part of `cmg_neuron_forward`: the 0 leaf `r`, then
      `r = r + w[wi] * x[wi]` for each weight in turn, each turn appending a
      MUL and an ADD node. */
  method WeightedSum(e: Engine, ws: seq<Value>, x: seq<Value>) returns (r: Value)
    requires e.Valid() && |ws| <= |x| && IdsBelow(ws, e.numValues) && IdsBelow(x, e.numValues)
    modifies e, e.values
    ensures e.Valid() && old(e.Nodes()) <= e.Nodes()
    ensures e.values == old(e.values) || fresh(e.values)
    ensures e.numValues == old(e.numValues) + 1 + 2 * |ws|
    ensures e.Nodes()[old(e.numValues)] == Leaf(old(e.numValues), 0.0)
    ensures TermsAt(e.Nodes(), ws, x, old(e.numValues), |ws|)
    ensures r.id == e.numValues - 1 && e.Nodes()[r.id] == r
    ensures r.data == Dot(ws, DataOf(x), |ws|)
  {
    ghost var base := e.numValues;
    r := e.MakeValue(0.0);
    for wi := 0 to |ws|
      invariant e.Valid() && old(e.Nodes()) <= e.Nodes()
      invariant e.values == old(e.values) || fresh(e.values)
      invariant e.numValues == base + 1 + 2 * wi
      invariant e.Nodes()[base] == Leaf(base, 0.0)
      invariant TermsAt(e.Nodes(), ws, x, base, wi)
      invariant r.id == base + 2 * wi && e.Nodes()[r.id] == r && r.data == Dot(ws, DataOf(x), wi)
    {
      ghost var pre := e.Nodes();
      ghost var y := r;
      ghost var m;
      r, m := AddTerm(e, r, ws[wi], x[wi]);
      TermsAtStep(pre, e.Nodes(), ws, x, base, wi, y, m, r);
    }
  }

  /** The bias ADD and the RELU after the loop complete a neuron's records. */
  lemma NeuronRecordsClose(pre: seq<Value>, mid: seq<Value>, s: seq<Value>, n: Neuron, x: seq<Value>, base: nat,
                           y: Value, a: Value, r: Value)
    requires NeuronOk(n) && n.numWeights <= |x|
    requires TermsAt(pre, n.weights, x, base, n.numWeights) && |pre| == base + 2 * n.numWeights + 1
    requires pre[base] == Leaf(base, 0.0)
    requires y.id == base + 2 * n.numWeights && y.data == Dot(n.weights, DataOf(x), n.numWeights)
    requires a == Value(|pre|, y.data + n.bias.data, 0.0, ADD, y.id, n.bias.id) && mid == pre + [a]
    requires r == Value(|mid|, Relu(a.data), 0.0, RELU, a.id, NoOperand) && s == mid + [r]
    ensures NeuronRecordsAt(s, n, x, base)
    ensures r.data == NeuronOut(n, DataOf(x))
  {
    assert pre <= s;
    TermsAtGrows(pre, s, n.weights, x, base, n.numWeights);
    assert s[base] == pre[base];
    assert s[|pre|] == a && s[|pre| + 1] == r;
  }

  /** One turn of the loop of `cmg_neuron_forward`: `y + w * x` as a MUL
      node followed by an ADD node. */
  method AddTerm(e: Engine, y: Value, w: Value, x: Value) returns (r: Value, ghost m: Value)
    requires e.Valid() && y.id < e.numValues && w.id < e.numValues && x.id < e.numValues
    modifies e, e.values
    ensures e.Valid()
    ensures e.values == old(e.values) || fresh(e.values)
    ensures m == Value(old(e.numValues), w.data * x.data, 0.0, MUL, w.id, x.id)
    ensures r == Value(old(e.numValues) + 1, y.data + m.data, 0.0, ADD, y.id, m.id)
    ensures e.Nodes() == old(e.Nodes()) + [m, r]
    ensures e.numValues == old(e.numValues) + 2
  {
    var p := e.ValMul(w, x);
    r := e.ValAdd(y, p);
    m := p;
  }

  /** Records of an arena that the outputs `ys` are copies of: RELU nodes,
      as every neuron's result is. */
  predicate OutputsIn(ys: seq<Value>, s: seq<Value>) {
    forall k :: 0 <= k < |ys| ==> ys[k].id < |s| && s[ys[k].id] == ys[k] && ys[k].op == RELU
  }

  /** `v` is the result of neuron `n` on `x`: the last of that neuron's
      records, which end at `v`'s index of arena `s`. */
  predicate NeuronResultAt(s: seq<Value>, n: Neuron, x: seq<Value>, v: Value)
    requires NeuronOk(n) && n.numWeights <= |x|
  {
    v.id >= 2 * n.numWeights + 2 && NeuronRecordsAt(s, n, x, v.id - 2 * n.numWeights - 2)
  }

  lemma OutputsInGrows(ys: seq<Value>, s: seq<Value>, s': seq<Value>)
    requires OutputsIn(ys, s) && s <= s'
    ensures OutputsIn(ys, s')
  {
    forall k | 0 <= k < |ys| ensures s'[ys[k].id] == ys[k] {
      assert s'[ys[k].id] == s[ys[k].id];
    }
  }

  lemma OutputsInSnoc(ys: seq<Value>, v: Value, s: seq<Value>, s': seq<Value>)
    requires OutputsIn(ys, s) && s <= s'
    requires v.id < |s'| && s'[v.id] == v && v.op == RELU
    ensures OutputsIn(ys + [v], s')
  {
    OutputsInGrows(ys, s, s');
  }

  /** Output `k` of `ys` is the result of neuron `k` on `x` in arena `s`. */
  predicate LayerResultsAt(s: seq<Value>, ns: seq<Neuron>, x: seq<Value>, ys: seq<Value>)
    requires |ys| <= |ns| && forall k :: 0 <= k < |ns| ==> NeuronOk(ns[k]) && ns[k].numWeights <= |x|
  {
    forall k :: 0 <= k < |ys| ==> NeuronResultAt(s, ns[k], x, ys[k])
  }

  lemma LayerResultsSnoc(s: seq<Value>, s': seq<Value>, ns: seq<Neuron>, x: seq<Value>, ys: seq<Value>, v: Value)
    requires |ys| < |ns| && forall k :: 0 <= k < |ns| ==> NeuronOk(ns[k]) && ns[k].numWeights <= |x|
    requires LayerResultsAt(s, ns, x, ys) && s <= s'
    requires NeuronResultAt(s', ns[|ys|], x, v)
    ensures LayerResultsAt(s', ns, x, ys + [v])
  {
    forall k | 0 <= k < |ys| ensures NeuronResultAt(s', ns[k], x, ys[k]) {
      NeuronRecordsGrow(s, s', ns[k], x, ys[k].id - 2 * ns[k].numWeights - 2);
    }
  }

  /** `cmg_layer_forward`: output `ni` is neuron `ni` applied to `x`, a copy
      of the RELU record that ends that neuron's records. */
  method LayerForward(e: Engine, layer: Layer, x: seq<Value>) returns (y: array<Value>)
    requires e.Valid() && LayerOk(layer)
    requires forall k :: 0 <= k < |layer.neurons| ==> layer.neurons[k].numWeights <= |x|
    requires LayerIn(layer, e.numValues) && IdsBelow(x, e.numValues)
    modifies e, e.values
    ensures e.Valid() && old(e.Nodes()) <= e.Nodes()
    ensures e.values == old(e.values) || fresh(e.values)
    ensures fresh(y) && y != e.values && y.Length == layer.numNeurons
    ensures DataOf(y[..]) == LayerOut(layer, DataOf(x))
    ensures OutputsIn(y[..], e.Nodes())
    ensures LayerResultsAt(e.Nodes(), layer.neurons, x, y[..])
  {
    y := new Value[layer.numNeurons](_ => Blank);
    ghost var outs: seq<Value> := [];
    for ni := 0 to layer.numNeurons
      invariant e.Valid() && old(e.Nodes()) <= e.Nodes()
      invariant e.values == old(e.values) || fresh(e.values)
      invariant y != e.values && |outs| == ni
      invariant y[..ni] == outs
      invariant OutputsIn(outs, e.Nodes())
      invariant LayerResultsAt(e.Nodes(), layer.neurons, x, outs)
    {
      assert NeuronIn(layer.neurons[ni], e.numValues) by {
        assert NeuronIn(layer.neurons[ni], old(e.numValues));
      }
      var v := NeuronOfLayer(e, layer, x, ni, outs);
      y[ni] := v;
      outs := outs + [v];
    }
    assert y[..] == outs;
    ResultsData(e.Nodes(), layer.neurons, x, outs);
  }

  /** One turn of the loop of `cmg_layer_forward`: the pass of the next
      neuron, whose result joins the outputs so far. */
  method NeuronOfLayer(e: Engine, layer: Layer, x: seq<Value>, ni: nat, ghost outs: seq<Value>) returns (v: Value)
    requires e.Valid() && LayerOk(layer) && ni == |outs| < layer.numNeurons
    requires forall k :: 0 <= k < |layer.neurons| ==> layer.neurons[k].numWeights <= |x|
    requires NeuronIn(layer.neurons[ni], e.numValues) && IdsBelow(x, e.numValues)
    requires OutputsIn(outs, e.Nodes()) && LayerResultsAt(e.Nodes(), layer.neurons, x, outs)
    modifies e, e.values
    ensures e.Valid() && old(e.Nodes()) <= e.Nodes()
    ensures e.values == old(e.values) || fresh(e.values)
    ensures OutputsIn(outs + [v], e.Nodes()) && LayerResultsAt(e.Nodes(), layer.neurons, x, outs + [v])
  {
    ghost var pre := e.Nodes();
    v := NeuronForward(e, layer.neurons[ni], x);
    OutputsInSnoc(outs, v, pre, e.Nodes());
    LayerResultsSnoc(pre, e.Nodes(), layer.neurons, x, outs, v);
  }

  /** Each output whose records lie in the arena holds its neuron's value. */
  lemma ResultsData(s: seq<Value>, ns: seq<Neuron>, x: seq<Value>, ys: seq<Value>)
    requires |ys| <= |ns| && forall k :: 0 <= k < |ns| ==> NeuronOk(ns[k]) && ns[k].numWeights <= |x|
    requires LayerResultsAt(s, ns, x, ys) && OutputsIn(ys, s)
    ensures forall k :: 0 <= k < |ys| ==> ys[k].data == NeuronOut(ns[k], DataOf(x))
  {
    forall k | 0 <= k < |ys| ensures ys[k].data == NeuronOut(ns[k], DataOf(x)) {
      assert NeuronResultAt(s, ns[k], x, ys[k]);
      assert NeuronRecordsAt(s, ns[k], x, ys[k].id - 2 * ns[k].numWeights - 2);
      assert s[ys[k].id] == ys[k];
    }
  }

  /** `cmg_mlp_forward`: the first layer on `x`, then each further layer on
      the previous layer's outputs. The source reads `layers[0]` without a
      check, so the network has at least one layer. The outputs are copies
      of the RELU records of the last layer's neurons. */
  method MlpForward(e: Engine, mlp: Mlp, x: seq<Value>) returns (y: array<Value>)
    requires e.Valid() && Shaped(mlp) && mlp.numLayers >= 1 && mlp.sizes[0] <= |x|
    requires MlpIn(mlp, e.numValues) && IdsBelow(x, e.numValues)
    modifies e, e.values
    ensures e.Valid() && old(e.Nodes()) <= e.Nodes()
    ensures e.values == old(e.values) || fresh(e.values)
    ensures fresh(y) && y != e.values && y.Length == mlp.sizes[mlp.numLayers]
    ensures DataOf(y[..]) == MlpOut(mlp, DataOf(x), mlp.numLayers)
    ensures OutputsIn(y[..], e.Nodes())
  {
    assert LayerShaped(mlp.layers[0], mlp.sizes[0], mlp.sizes[1]);
    y := LayerForward(e, mlp.layers[0], x);
    for li := 1 to mlp.numLayers
      invariant e.Valid() && old(e.Nodes()) <= e.Nodes() && old(e.numValues) <= e.numValues
      invariant e.values == old(e.values) || fresh(e.values)
      invariant fresh(y) && y != e.values && y.Length == mlp.sizes[li]
      invariant DataOf(y[..]) == MlpOut(mlp, DataOf(x), li)
      invariant OutputsIn(y[..], e.Nodes())
    {
      assert LayerShaped(mlp.layers[li], mlp.sizes[li], mlp.sizes[li + 1]);
      LayersInGrows(mlp.layers, old(e.numValues), e.numValues);
      assert LayerIn(mlp.layers[li], e.numValues);
      assert IdsBelow(y[..], e.numValues);
      var r := LayerForward(e, mlp.layers[li], y[..]);
      y := r;
    }
  }
}
