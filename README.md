# cmicrograd engine and MLP, modelled in Dafny

This project models the scalar reverse-mode autodiff engine of cmicrograd
(`engine.h`) and the small multilayer perceptron built on top of it (`nn.h`).

The engine keeps one arena of node records. Each `Value` record holds:

- its index `id`;
- a forward value `data` and a gradient accumulator `grad`;
- an operation tag;
- two operand ids, with `size_t(-1)` meaning "no operand".

`make_value` appends a node and grows a full arena to `size * 3 / 2`.
`val_add`, `val_mul` and `val_relu` compute a forward value and record the node.
`_backward` applies the local gradient rule of one node to its operands.
`val_backward` seeds the root with gradient 1. It then walks the operands with a ring-buffer queue of `num_values` slots and a `visited` table.

On top of the engine, `nn.h` does these things:

- creates neurons, layers and networks: bias 0, weights 0.1;
- flattens their parameters into one array: per neuron, its weights then its bias;
- runs the forward pass `relu(w·x + b)`. Each neuron appends a 0 leaf, a MUL and an ADD node per weight, an ADD for the bias and a final RELU to the arena, and the model states each of these records exactly.

The project has five modules:

- `Graph` (graph.dfy): node records, the arena invariant and the local rules as written.
- `Traversal` (traversal.dfy): reachability along recorded operands, the ring-buffer queue as a value, and the invariant of the loop of `val_backward`.
- `Engine` (engine.dfy): the arena as a class over an `array`, and the constructors and backward pass as methods.
- `Nn` (nn.dfy): the network as datatypes, and its construction, parameter collection and forward pass as methods over the engine.
- `Scenario` (scenario.dfy): the concrete programs of the test files.

The backward pass is proved to have these properties:

- It terminates, with the initial tail taken modulo `num_values` (see ## Findings).
- The ring never overwrites an entry that has not been taken.
- `_backward` runs at most once per node, and only on nodes reachable from the root.
- It runs on every reachable node except possibly node 0, which is always a leaf.
- Changes are confined to gradients of reachable nodes, and the root keeps its seed 1.

The rule amounts themselves are stated exactly as the source writes them. This includes the ones that differ from textbook derivatives:

- SUB takes `g` from both operands.
- DIV adds `a/b²·g` to the divisor.
- POW uses `pow(g, b)`.

## Model

| member | source | states |
|---|---|---|
| Graph.Relu | engine.h:86-91 | the stored value is never negative, is at least the input, and equals the input when the input is positive |
| Graph.Operands | engine.h:189-196 | at most two ids, and an id is listed exactly when it is a non-sentinel id in one of the two slots |
| Graph.LocalRule | engine.h:93-160 | `_backward` on node i changes only gradient fields, and leaves every node that is not an operand of i unchanged |
| Graph.LocalRuleAdds | engine.h:93-160 | the gradient of each node grows by exactly the amount the rule of i assigns to each operand slot naming it (so both amounts when both slots name it, nothing for NOP), and node i itself is unchanged |
| Graph.AddRule | engine.h:97-103 | ADD with distinct operands adds the node's gradient to each of them |
| Graph.AddTwiceSameOperand | engine.h:97-103 | ADD whose two slots name the same node adds twice the gradient to that node |
| Graph.MulRule | engine.h:122-129 | MUL adds `b·g` to a and `a·g` to b, and `2·a·g` when both slots name the same node |
| Graph.ReluRule | engine.h:149-154 | RELU adds `g` to its operand exactly when the operand's value is positive, and changes no other node |
| Graph.ApplyRules | engine.h:179-198 | applying the rules of any sequence of nodes changes only gradients and keeps the arena well formed |
| Graph.ApplyRulesStep | engine.h:183-185 | processing a further node applies its rule to the state left by the earlier ones |
| Graph.ApplyRulesKeeps | engine.h:93-160 | a node that no processed node names as an operand keeps its whole record |
| Graph.Seed | engine.h:174 | seeding sets the root's gradient to 1 and leaves every other node and every non-gradient field unchanged |
| Graph.Grow | engine.h:53-56 | `size*3/2` exceeds the size for every size of at least 2 (so from the initial 10), and does not grow sizes 0 and 1 |
| Graph.OperandsOk | engine.h:60-67 | the operand ids a node may record: the sentinel or an earlier node, and a real node in each slot the operation's rule reads |
| Graph.WellFormed | engine.h:60-67 | the arena invariant: every node's id is its index and its operands satisfy `OperandsOk` |
| Graph.OperandDeltas | engine.h:93-160 | the amounts `_backward` adds to the two operand slots; a NOP leaf adds nothing, an operation without a second operand adds nothing to slot 1, and a zero gradient adds nothing to either slot, for every operation including POW (over the reals; IEEE infinities and NaN are not modelled) |
| Traversal.PathDescends | engine.h:60-62 | along any walk over recorded operands ids strictly decrease and stay in the arena, so the graph is acyclic |
| Traversal.ReachableBelow | engine.h:60-62 | every node reachable from the root is an arena node with an id no larger than the root's |
| Traversal.FirstNodeIsLeaf | engine.h:60-67 | node 0 of a well-formed arena records no operand and is a NOP leaf |
| Traversal.PopKeepsRing | engine.h:181-182 | taking the head entry yields the first pending entry and leaves the remaining ones in the ring |
| Traversal.EnqueueKeepsRing | engine.h:191-195 | queueing a non-sentinel id appends it to the pending entries, and the sentinel is not queued |
| Traversal.EnqueueOperandsKeepsRing | engine.h:189-196 | the two slot updates append exactly the node's non-sentinel operands, in slot order |
| Traversal.SingleNodeBackwardSpins | engine.h:176-182 | for a one-node arena the loop as written can run, and after its first iteration reaches a state that is its own successor, with head and tail still different |
| Traversal.RingStartAsWritten | engine.h:176-178 | the initial ring as written: it agrees with the reduced start on arenas of two or more nodes, and on a one-node arena its tail equals the arena size |
| Traversal.RingStart | engine.h:176-178 | the initial ring with the tail reduced modulo `num_values` holds exactly the root pending, and nothing is visited |
| Traversal.Enqueue | engine.h:191-195 | a non-sentinel id is written at the tail slot, the tail advances modulo the ring size, and every other slot, the head and the visited table are unchanged; the sentinel changes nothing |
| Traversal.RingStep | engine.h:181-196 | one iteration advances the head modulo the arena size and marks the head node visited; a node already visited leaves the queue and tail unchanged |
| Traversal.StartKeepsInvariant | engine.h:171-178 | the initial queue, head, tail and visited table satisfy the loop invariant with only the root pending |
| Traversal.StepKeepsInvariant | engine.h:179-197 | while head and tail differ, the queue holds between 1 and n-1 pending entries, the head entry is the first of them, and one iteration preserves the invariant: no overwritten entry, each processed node once and reachable, visited marks exactly the processed nodes; and either one more node is processed or the pending entries shrink, which bounds the loop |
| Traversal.ExitCovers | engine.h:179-198 | when the loop stops, every node reachable from the root has been processed, except possibly node 0, which is a leaf |
| Engine.EnqueueOperands | engine.h:189-196 | the `ci` loop leaves the queue and tail as if each non-sentinel slot had been queued in order |
| Engine.StepByBranches | engine.h:181-197 | one iteration only pops an already visited node, and otherwise marks it and queues its two slots |
| Engine.Engine.Valid | engine.h:51-67 | the arena invariant: `size_values` is the array's length, at least the initial 10 and at least `num_values`, and the recorded nodes are well formed |
| Engine.Engine.constructor | engine.h:204-209 | the arena starts empty with capacity 10 |
| Engine.Engine.MakeValue | engine.h:51-70 | appends exactly one node at index old `num_values`, with that id, the given data and op, zero gradient and the sentinel when no operand array is passed; earlier nodes are unchanged; capacity becomes `size*3/2` exactly when the arena was full |
| Engine.Engine.ValAdd | engine.h:72-77 | appends an ADD node holding `a+b` that records both operand ids |
| Engine.Engine.ValMul | engine.h:79-84 | appends a MUL node holding `a·b` that records both operand ids |
| Engine.Engine.ValRelu | engine.h:86-91 | appends a RELU node holding relu(a) that records a and the sentinel |
| Engine.Engine.AddToGrad | engine.h:99-102 | adds the amount to one node's gradient and changes nothing else |
| Engine.Engine.BackwardNode | engine.h:93-160 | the arena after `_backward(i)` is the rule of node i applied to the arena before |
| Engine.Engine.TakeHead | engine.h:181-197 | one iteration of the loop advances the ring as the traversal step does, and applies `_backward` exactly when the head node was not visited |
| Engine.Engine.Backward | engine.h:169-202 | the pass terminates. The result is the seeded arena with the rules of a sequence of distinct, reachable nodes applied, starting at the root and covering every reachable node except possibly leaf 0. The root's gradient is 1, and every unreachable node is unchanged |
| Engine.Engine.Drain | engine.h:179-198 | started with the root alone pending and the root seeded, the loop ends with the rules of distinct, reachable nodes applied, the root first, covering every reachable node except possibly leaf 0 |
| Engine.Engine.DrainStep | engine.h:181-197 | one iteration keeps the loop invariant and the arena equal to the rules of the processed nodes applied, and either processes a new node or takes a visited entry off the queue |
| Engine.DrainStepGhost | engine.h:181-197 | the ghost side of one iteration: the invariant carries over to the stepped ring, the processed nodes stay in the arena's range, and the new arena is the rules of the extended order applied to the seeded arena |
| Engine.BackwardFrame | engine.h:174-198 | applying the rules of reachable nodes keeps the root's seed 1 and every unreachable node's record |
| Nn.NeuronCreate | nn.h:10-20 | appends a bias node and then `num_inputs` weight nodes, each a NOP leaf with zero gradient and no operands, holding 0 for the bias and 0.1 for the weights, and returns a neuron whose records are exactly those nodes |
| Nn.LayerCreate | nn.h:33-39 | makes `num_outputs` freshly initialised neurons of `num_inputs` weights each, appended in order |
| Nn.MlpCreate | nn.h:91-101 | `num_sizes - 1` layers, a verbatim copy of the sizes, and layer li with `sizes[li]` inputs and `sizes[li+1]` neurons |
| Nn.LayerParams | nn.h:48-65 | the reported count is the sum of `num_weights + 1`, and the array lists each neuron's weights then its bias, neuron by neuron |
| Nn.FillNeuron | nn.h:57-62 | one neuron's pass writes its weights then its bias after the earlier entries, advancing the running index by `num_weights + 1` |
| Nn.MlpParams | nn.h:123-138 | the result is the layers' parameter blocks concatenated in layer order, with the sum of their counts |
| Nn.Append | nn.h:131-132 | the grown array is the old entries followed by the new block |
| Nn.ParamCountIsLength | nn.h:50-62 | the count computed by the first loop is the number of entries the second loop writes |
| Nn.MlpParamCountIsLength | nn.h:126-136 | for a network the summed count is the length of the concatenated array |
| Nn.LayerParamLayout | nn.h:57-62 | weight wi of neuron ni sits at offset (parameters of the earlier neurons) + wi, and its bias right after its weights |
| Nn.LastNeuronLayout | nn.h:57-62 | the last neuron's weights sit right after the parameters of the earlier neurons, followed by its bias |
| Nn.ParamSeqKeepsPrefix | nn.h:57-62 | adding a neuron leaves the earlier neurons' parameters at their offsets |
| Nn.ParamSeqAppend | nn.h:57-62 | the parameters of two runs of neurons are the parameters of the first followed by those of the second |
| Nn.UniformLayerCount | nn.h:50-52 | a layer of neurons with `nin` weights each has `|neurons|·(nin+1)` parameters |
| Nn.ShapedParamCount | nn.h:123-138 | a network shaped by `sizes` has the sum of `sizes[li+1]·(sizes[li]+1)` parameters |
| Nn.MnistParamCount | test.c:50-56 | the network of widths 784, 30, 10 has 23860 parameters |
| Nn.ParamsAreCreatedNodes | nn.h:57-62 | a layer's parameter array holds exactly the nodes its creation appended, each once, in another order |
| Nn.MlpParamsAreCreatedNodes | nn.h:123-138 | a network's parameter array holds exactly the nodes its creation appended, each once |
| Nn.LayerOut | nn.h:76-82 | a layer has exactly one output per neuron |
| Nn.MlpOut | nn.h:111-121 | the first k layers applied in turn produce `sizes[k]` values |
| Nn.LayerOutNonNegative | nn.h:73 | every layer output is non-negative, since each neuron ends in relu |
| Nn.FreshNeuronOut | nn.h:10-20 | a freshly created neuron computes relu(0.1 · (x[0] + ... + x[n-1])) |
| Nn.NeuronRecordsAt | nn.h:67-74 | the exact records one neuron's forward pass leaves from a base index: the 0 leaf, then per weight a MUL of that weight and input and an ADD of the running sum and that product, then the ADD of the bias and the final RELU, each with its id, data, zero gradient, op and operand ids |
| Nn.WeightedSum | nn.h:69-71 | appends the 0 leaf and then, per weight, exactly the MUL and ADD records of `NeuronRecordsAt`; the result is the arena's last record (the last ADD, or the 0 leaf when there are no weights), holding w·x summed left to right |
| Nn.DotAddTerm | nn.h:71 | adding turn wi's product to the running sum of the first wi products gives the sum of the first wi + 1 |
| Nn.NeuronRecordsClose | nn.h:72-73 | after the weighted sum, the bias ADD and the RELU complete the neuron's records, and the RELU holds relu(w·x + b) |
| Nn.NeuronForward | nn.h:67-74 | appends exactly the records `NeuronRecordsAt` describes, `2·num_weights + 3` of them, and leaves earlier nodes unchanged; the result is the RELU record appended last, as stored in the arena, and holds relu(w·x + b) accumulated left to right from the 0 leaf |
| Nn.AddTerm | nn.h:71 | one turn of the loop appends a MUL record of the weight and the input and then an ADD record of the running sum and that product, which it returns; it holds `y + w·x` |
| Nn.TermsAtStep | nn.h:70-71 | one turn of the loop extends the exact records of the first wi terms to those of the first wi + 1 |
| Nn.TermsAtGrows | nn.h:70-71 | the records of the first k terms stay in place when further nodes are appended |
| Nn.NeuronRecordsGrow | nn.h:67-74 | a neuron's records stay in place when further nodes are appended |
| Nn.NeuronEdges | nn.h:67-74 | the operand edges a neuron's records create: each ADD to the running sum before it and to its product, each MUL to its weight and input, the RELU to the bias ADD and that ADD to the last sum and the bias |
| Nn.SumNodesReach | nn.h:70-71 | from a node that reaches the running sum after k turns, the weight and the input of every earlier turn are reachable |
| Nn.TurnReach | nn.h:71 | a running-sum ADD node reaches the previous running sum and, through its MUL node, that turn's weight and input |
| Nn.NeuronReaches | nn.h:67-74 | from the neuron's output node the bias, every weight and every input it reads are reachable, so `val_backward` from the output processes their gradients |
| Nn.LayerForward | nn.h:76-82 | a fresh array, distinct from the arena, of `num_neurons` outputs; entry ni holds what neuron ni computes from x, is a RELU record of the arena, and has below it the exact records of neuron ni's pass |
| Nn.NeuronOfLayer | nn.h:79-80 | one turn of the layer loop: the next neuron's result joins the outputs so far, with its records in the arena and earlier outputs kept |
| Nn.ResultsData | nn.h:76-82 | an output whose neuron's records lie in the arena holds exactly that neuron's value relu(w·x + b) |
| Nn.LayerResultsSnoc | nn.h:79-80 | appending one more neuron's pass keeps the records of the earlier outputs and adds those of the new one |
| Nn.MlpForward | nn.h:111-121 | a fresh array, distinct from the arena, holding the outputs of the layers applied in turn, as many as the last layer has neurons, each a RELU record of the arena |
| Scenario.SanityCheck | test.c:8-16 | the sanity expression at x = -4 evaluates to -20, and after the backward pass the output holds gradient 1 |
| Scenario.SanityZ | test.c:9 | `z = 2x + 2 + x`; earlier nodes are kept |
| Scenario.SanityQH | test.c:10-11 | `q = relu(z) + z·x` and `h = relu(z·z)`; earlier nodes are kept |
| Scenario.SanityY | test.c:12 | `y = h + q + q·x`; earlier nodes are kept |
| Scenario.FanOut | engine.h:97-103 | for `c = a + a`, the backward pass leaves `grad(c) = 1` and `grad(a) = 2` |
| Scenario.MnistParams | test.c:50-56 | creating the 784-30-10 network and collecting its parameters reports 23860 |
| Scenario.MnistForwardBackward | test.c:58-64 | the 784 inputs of value 1/784 fed through the 784-30-10 network give 10 outputs holding the network's function of those inputs, and after the backward passes the last output holds gradient 1 |
| Scenario.MnistForward | test.c:50-61 | the 784-30-10 network applied to 784 inputs of value 1/784 yields a fresh array of 10 outputs holding the network's function of those inputs |
| Scenario.MakeInputs | test.c:58-60 | the arena becomes its old nodes followed by the returned entries, and entry k is the NOP leaf with id old count + k holding the given value |
| Scenario.BackwardEach | test.c:62-63 | a backward pass from each output in turn keeps the arena valid and leaves the last output's gradient at 1 |

## Left out

The global and the number types:

- The global `_engine` is an `Engine` object passed explicitly to every operation. `engine_init` is its constructor.
- `float` data and gradients are `real`. Rounding, infinities and NaN are not modelled.
- IEEE division and the C library's `pow` and `log` are the parameter `FloatOps`. Dafny's real division needs a non-zero divisor, and there is no real `pow` or `log`. The DIV and POW rules are stated as written, but nothing numerical is claimed about them.
- `size_t` ids and counts are unbounded naturals, and the sentinel `size_t(-1)` is `-1`. Overflow of `size_values * 3`, of the allocation sizes and of the node count is not modelled.

Memory and I/O:

- `malloc`, `realloc` and `calloc` always succeed.
- The `free` calls are omitted: `engine_free`, `cmg_neuron_free`, `cmg_layer_free`, `cmg_mlp_free`, and the frees inside `val_backward`, `cmg_mlp_forward` and `cmg_mlp_params`.
- `realloc` of `values` is a fresh array plus a copy.
- `val_print`, `OP_LABELS` and the `main` functions are printing and entry points.
- `test.py` is a PyTorch script.

Representation choices:

- A new engine array is filled with a placeholder record, and a new queue slot with 0. The source leaves these contents unspecified; they are never read.
- `nn.h` fills its structs through out-parameters; here the create functions return the finished `Neuron`, `Layer` and `Mlp` values.
- A struct's `malloc`ed arrays are filled by loops, then stored as sequences. They are never changed afterwards.
- The input `x` of the forward functions, test.c's stack array `x[784]`, and the `sizes` array with its count, are sequences.
- The nn structs hold copies of node records, as the source's do.

APIs that no shown file defines:

- `val_grad`, `val_data`, `val_sub`, `val_div`, `val_pow`, `engine_free_expression`, `max_id`, `nn_mlp_*`, `cmg_backward`, and the C++ operator overloads.
- test.c's second scenario needs SUB, DIV and POW constructors and float tolerances, so it is not modelled.
- `Scenario.MnistParams` and `Scenario.MnistForwardBackward` use the `cmg_mlp_*` functions of nn.h in place of test.c's `nn_mlp_*`. Each starts from a fresh `Engine`, whereas test.c:46-62 builds the network in the arena already filled by `test_sanity_check` and `test_more_ops`; no stated property depends on the earlier contents.

Deliberately weaker or narrower contracts:

- Scenario.SanityZ: the node ids follow a left-to-right evaluation of the nested calls of test.c:9-12 (for `z`, the MUL before the second `make_value(2)`). C leaves the evaluation order of function arguments unspecified, so the arena order, though not any data value, may differ under another compiler.
- Scenario.MnistForwardBackward: states the last output's gradient only; the earlier outputs' gradients may change through later passes and are not stated.
- Scenario.SanityCheck: does not prove test.c's `grad(x) == 46`. `Engine.Engine.Backward` fixes the processed nodes only up to the invariant, not their exact breadth-first order. The traversal is not reverse-topological, so no general chain-rule theorem is claimed either.
- Engine.Engine.Backward: states which nodes are processed (each at most once, all reachable, all reachable ones but possibly leaf 0), not the order in which they are processed.
- Engine.Engine.MakeValue: requires the operand ids to name earlier nodes and to match the arity of the operation. Every constructor in engine.h and nn.h guarantees this. `make_value` called directly with arbitrary ids would make `_backward` read outside the arena, and that is not modelled.
- Nn.MlpCreate: requires at least one size. With `num_sizes == 0` the source's unsigned `num_sizes - 1` wraps around.
- Nn.MlpForward: states that each output is a RELU record of the arena, but does not list the records of every layer as `Nn.LayerForward` does for one layer.
- Nn.MlpForward: requires at least one layer, since the source reads `layers[0]` unchecked. It also requires the layer widths that `cmg_mlp_create` sets up.
- Engine.Engine.BackwardNode: reads each rule's amounts once, before the first update. Operands always precede the node, so no update can change what the rule reads.

## Findings

| source | as written | input that shows it | evidently intended | confidence | as-written member | corrected member |
|---|---|---|---|---|---|---|
| engine.h:176-182 | `queue_tail` starts at 1, the only tail not reduced modulo `num_values`; the head is reduced after the first pop | `val_backward` on an arena holding a single node: the head becomes `1 % 1 = 0`, the tail stays 1, and every later iteration pops the visited node without change, so the loop never ends | start with the tail `1 % num_values`; the loop then ends at once for one node, and terminates and covers the reachable nodes in general | high; not executed | Traversal.SingleNodeBackwardSpins | Engine.Engine.Backward |
