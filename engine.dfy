/** The engine of engine.h: the growable arena of node records, the graph
    builders that append to it, and the backward pass over it. */
module Engine {
  import opened Graph
  import opened Traversal

  /** The first and second operand id that `make_value` records: the two
      entries of the `op_ids` array, or the sentinel when none is passed. */
  function FirstId(opIds: Option<(int, int)>): int {
    match opIds
    case None => NoOperand
    case Some(ids) => ids.0
  }

  function SecondId(opIds: Option<(int, int)>): int {
    match opIds
    case None => NoOperand
    case Some(ids) => ids.1
  }

  /** Operand slot `ci` of a node, as `op_ids[ci]`. */
  function OpId(v: Value, ci: nat): int
    requires ci < 2
  {
    if ci == 0 then v.opId0 else v.opId1
  }

  /** The first `ci` iterations of the operand loop of `val_backward`. */
  function EnqueueSlots(r: Ring, v: Value, ci: nat): (r': Ring)
    requires ci <= 2 && r.tail < |r.queue|
    ensures r'.tail < |r'.queue| == |r.queue| && r'.head == r.head && r'.visited == r.visited
  {
    if ci == 0 then r else Enqueue(EnqueueSlots(r, v, ci - 1), OpId(v, ci - 1))
  }

  /** The operand loop of `val_backward`: queue the operand ids of `v` that
      are not the sentinel, slot 0 first, advancing the tail modulo the
      queue's length. */
  method EnqueueOperands(queue: array<int>, tail: nat, v: Value, ghost head: nat, ghost visited: seq<bool>)
    returns (newTail: nat)
    requires tail < queue.Length
    modifies queue
    ensures Ring(queue[..], head, newTail, visited) == EnqueueSlots(Ring(old(queue[..]), head, tail, visited), v, 2)
  {
    ghost var start := Ring(queue[..], head, tail, visited);
    newTail := tail;
    for ci := 0 to 2
      invariant Ring(queue[..], head, newTail, visited) == EnqueueSlots(start, v, ci)
    {
      if OpId(v, ci) != NoOperand {
        queue[newTail] := OpId(v, ci);
        newTail := (newTail + 1) % queue.Length;
      }
    }
  }

  /** `RingStep` with its operand loop written as `EnqueueSlots`, for a node
      record `v` with the operands of the node taken from the queue. */
  lemma StepByBranches(s: seq<Value>, r: Ring, v: Value)
    requires WellFormed(s) && CanStep(s, r) && r.tail < |r.queue|
    requires v.opId0 == s[r.queue[r.head]].opId0 && v.opId1 == s[r.queue[r.head]].opId1
    ensures var c := r.queue[r.head];
            var popped := r.(head := (r.head + 1) % |s|);
            RingStep(s, r) == if r.visited[c] then popped
                              else EnqueueSlots(popped.(visited := r.visited[c := true]), v, 2)
  {
    var c := r.queue[r.head];
    assert WellFormedAt(s, c);
    if !r.visited[c] {
      var marked := r.(head := (r.head + 1) % |s|, visited := r.visited[c := true]);
      assert EnqueueSlots(marked, v, 1) == Enqueue(marked, v.opId0);
      assert EnqueueSlots(marked, v, 2) == Enqueue(EnqueueSlots(marked, v, 1), v.opId1);
    }
  }

  /** A node keeps its id and operands while only gradients change. */
  lemma KeepsOperands(s: seq<Value>, t: seq<Value>, c: int)
    requires WellFormed(s) && SameShape(s, t) && 0 <= c < |s|
    ensures WellFormed(t) && t[c].id == c
    ensures t[c].op == s[c].op && t[c].opId0 == s[c].opId0 && t[c].opId1 == s[c].opId1
  {
    SameShapeKeepsWellFormed(s, t);
    assert t[c] == s[c].(grad := t[c].grad);
    assert WellFormedAt(s, c);
  }

  /** The record `make_value` fills in for a blank slot (`malloc` leaves it
      undefined). */
  const Blank: Value := Value(0, 0.0, 0.0, NOP, NoOperand, NoOperand)

  class Engine {
    var values: array<Value>
    var numValues: nat
    var sizeValues: nat

    /** The arena invariant: `size_values` is the capacity of `values`, the
        first `num_values` slots hold a well-formed graph, and the capacity
        is at least the initial 10, so growth always makes room. */
    ghost predicate Valid()
      reads this, values
    {
      && sizeValues == values.Length
      && numValues <= sizeValues
      && 10 <= sizeValues
      && WellFormed(values[..numValues])
    }

    /** The recorded nodes. */
    ghost function Nodes(): seq<Value>
      reads this, values
      requires numValues <= values.Length
    {
      values[..numValues]
    }

    /** `engine_init`: an empty arena with room for 10 nodes. */
    constructor ()
      ensures Valid() && Nodes() == [] && sizeValues == 10 && fresh(values)
    {
      values := new Value[10](_ => Blank);
      numValues := 0;
      sizeValues := 10;
    }

    /** `make_value`: append one node at index `num_values`, growing a full
        arena to `size_values * 3 / 2` first. Earlier nodes keep their
        records, and a node without operand array records the sentinel in
        both slots. */
    method MakeValue(data: real, opIds: Option<(int, int)> := None, op: Op := NOP) returns (v: Value)
      requires Valid()
      requires OperandsOk(op, FirstId(opIds), SecondId(opIds), numValues)
      modifies this, values
      ensures Valid()
      ensures v == Value(old(numValues), data, 0.0, op, FirstId(opIds), SecondId(opIds))
      ensures Nodes() == old(Nodes()) + [v]
      ensures numValues == old(numValues) + 1
      ensures sizeValues == if old(numValues) == old(sizeValues) then Grow(old(sizeValues)) else old(sizeValues)
      ensures values == old(values) || fresh(values)
    {
      if numValues == sizeValues {
        sizeValues := sizeValues * 3;
        sizeValues := sizeValues / 2;
        var grown := new Value[sizeValues](_ => Blank);
        forall k | 0 <= k < numValues {
          grown[k] := values[k];
        }
        values := grown;
      }
      v := Value(numValues, data, 0.0, op, FirstId(opIds), SecondId(opIds));
      values[numValues] := v;
      numValues := numValues + 1;
      assert values[..numValues] == old(Nodes()) + [v];
      forall j | 0 <= j < numValues ensures WellFormedAt(values[..numValues], j) {
        if j < numValues - 1 {
          assert WellFormedAt(old(Nodes()), j);
        }
      }
    }

    /** `val_add`: a node holding `a + b` that records both operands. */
    method ValAdd(a: Value, b: Value) returns (v: Value)
      requires Valid() && a.id < numValues && b.id < numValues
      modifies this, values
      ensures Valid() && Nodes() == old(Nodes()) + [v]
      ensures v == Value(old(numValues), a.data + b.data, 0.0, ADD, a.id, b.id)
      ensures numValues == old(numValues) + 1
      ensures values == old(values) || fresh(values)
    {
      v := MakeValue(a.data + b.data, Some((a.id, b.id)), ADD);
    }

    /** `val_mul`: a node holding `a * b` that records both operands. */
    method ValMul(a: Value, b: Value) returns (v: Value)
      requires Valid() && a.id < numValues && b.id < numValues
      modifies this, values
      ensures Valid() && Nodes() == old(Nodes()) + [v]
      ensures v == Value(old(numValues), a.data * b.data, 0.0, MUL, a.id, b.id)
      ensures numValues == old(numValues) + 1
      ensures values == old(values) || fresh(values)
    {
      v := MakeValue(a.data * b.data, Some((a.id, b.id)), MUL);
    }

    /** `val_relu`: a node holding `a` if positive and 0 otherwise, recording
        `a` and the sentinel. */
    method ValRelu(a: Value) returns (v: Value)
      requires Valid() && a.id < numValues
      modifies this, values
      ensures Valid() && Nodes() == old(Nodes()) + [v]
      ensures v == Value(old(numValues), Relu(a.data), 0.0, RELU, a.id, NoOperand)
      ensures numValues == old(numValues) + 1
      ensures values == old(values) || fresh(values)
    {
      v := MakeValue(if a.data > 0.0 then a.data else 0.0, Some((a.id, NoOperand)), RELU);
    }

    /** `p->grad += delta` on node `j` of the arena. */
    method AddToGrad(j: nat, delta: real)
      requires numValues <= values.Length && j < numValues
      modifies values
      ensures Nodes() == AddGrad(old(Nodes()), j, delta)
    {
      values[j] := values[j].(grad := values[j].grad + delta);
      assert values[..numValues] == AddGrad(old(Nodes()), j, delta);
    }

    /** `_backward` on node `i`: the rule of its operation adds the amounts
        of `OperandDeltas` to the gradients of the operands it reads, the
        first operand first; a leaf changes nothing. */
    method BackwardNode(i: nat, fl: FloatOps)
      requires Valid() && i < numValues
      modifies values
      ensures Valid() && Nodes() == LocalRule(old(Nodes()), i, fl)
    {
      ghost var s := Nodes();
      assert WellFormedAt(s, i);
      var val := values[i];
      var d := OperandDeltas(values[..numValues], i, fl);
      if UsesOperand0(val.op) {
        AddToGrad(val.opId0, d.0);
      }
      if UsesOperand1(val.op) {
        AddToGrad(val.opId1, d.1);
      }
      SameShapeKeepsWellFormed(s, Nodes());
    }

    /** One iteration of the while loop of `val_backward`: take the node at
        the head of the queue and, unless it is visited, apply `_backward`
        to it, mark it and queue its operands. `s0` is the arena before the
        pass, which differs from the current one only in gradients. */
    method TakeHead(queue: array<int>, visited: array<bool>, head: nat, tail: nat, fl: FloatOps, ghost s0: seq<Value>)
      returns (newHead: nat, newTail: nat)
      requires Valid() && queue.Length == numValues && visited.Length == numValues
      requires WellFormed(s0) && SameShape(s0, Nodes())
      requires CanStep(s0, Ring(queue[..], head, tail, visited[..])) && tail < numValues
      modifies values, queue, visited
      ensures Valid()
      ensures Ring(queue[..], newHead, newTail, visited[..]) == RingStep(s0, old(Ring(queue[..], head, tail, visited[..])))
      ensures Nodes() == if old(visited[queue[head]]) then old(Nodes()) else LocalRule(old(Nodes()), old(queue[head]), fl)
    {
      ghost var r := Ring(queue[..], head, tail, visited[..]);
      ghost var sNow := Nodes();
      var c := queue[head];
      KeepsOperands(s0, sNow, c);
      assert values[c] == sNow[c];
      StepByBranches(s0, r, values[c]);
      newHead := (head + 1) % numValues;
      newTail := tail;
      if !visited[values[c].id] {
        BackwardNode(c, fl);
        LocalRuleAdds(sNow, c, c, fl);
        visited[values[c].id] := true;
        newTail := EnqueueOperands(queue, tail, values[c], newHead, visited[..]);
      }
    }

    /** `val_backward` from node `val`: seed its gradient with 1, then run
        the ring-buffer traversal, applying `_backward` to each node taken
        from the queue that is not yet visited. The first slot is the
        traversal's tail reduced modulo `num_values` (see
        `Traversal.SingleNodeBackwardSpins` for the code as written). The
        ghost result `order` lists the nodes whose rule was applied: each
        reachable node once, the root first, except possibly node 0, which
        is a leaf and whose rule changes nothing. */
    method Backward(val: Value, fl: FloatOps) returns (ghost order: seq<int>)
      requires Valid() && val.id < numValues
      modifies values
      ensures Valid()
      ensures forall k :: 0 <= k < |order| ==> 0 <= order[k] < numValues
      ensures Nodes() == ApplyRules(Seed(old(Nodes()), val.id), order, fl)
      ensures Distinct(order)
      ensures order != [] ==> order[0] == val.id
      ensures forall k :: 0 <= k < |order| ==> Reachable(old(Nodes()), val.id, order[k])
      ensures forall w :: Reachable(old(Nodes()), val.id, w) ==> w in order || (w == 0 && old(Nodes())[0].op == NOP)
      ensures Nodes()[val.id].grad == 1.0
      ensures forall w :: 0 <= w < numValues && w != val.id && !Reachable(old(Nodes()), val.id, w) ==>
                Nodes()[w] == old(Nodes())[w]
    {
      ghost var s0 := Nodes();
      var n := numValues;
      var root := val.id;
      var queue := new int[n](_ => 0);
      var visited := new bool[n](_ => false);
      values[root] := values[root].(grad := 1.0);
      assert Nodes() == Seed(s0, root);
      var tail: nat := 1 % n;
      var head: nat := 0;
      queue[0] := root;
      assert Ring(queue[..], head, tail, visited[..]) == RingStart(s0, root);
      StartKeepsInvariant(s0, root);
      order := Drain(queue, visited, head, tail, fl, s0, root);
      BackwardFrame(s0, root, order, fl);
    }

    /** The while loop of `val_backward`, run from the initial ring with only
        the root pending and the root seeded: the ghost result `order` lists
        the nodes whose rule was applied, each once and reachable, the root
        first, and covers every reachable node except possibly leaf 0. */
    method Drain(queue: array<int>, visited: array<bool>, head0: nat, tail0: nat, fl: FloatOps,
                 ghost s0: seq<Value>, ghost root: int) returns (ghost order: seq<int>)
      requires Valid() && queue.Length == numValues && visited.Length == numValues
      requires WellFormed(s0) && |s0| == numValues && 0 <= root < numValues
      requires RingInv(s0, root, Ring(queue[..], head0, tail0, visited[..]), [root], [], 0)
      requires Nodes() == Seed(s0, root)
      modifies values, queue, visited
      ensures Valid()
      ensures forall k :: 0 <= k < |order| ==> 0 <= order[k] < numValues
      ensures Nodes() == ApplyRules(Seed(s0, root), order, fl)
      ensures Distinct(order) && (order != [] ==> order[0] == root)
      ensures forall k :: 0 <= k < |order| ==> Reachable(s0, root, order[k])
      ensures forall w :: Reachable(s0, root, w) ==> w in order || (w == 0 && s0[0].op == NOP)
    {
      var n := numValues;
      var head, tail := head0, tail0;
      ghost var pending := [root];
      ghost var deficit: nat := 0;
      order := [];
      while head != tail
        invariant Valid() && numValues == n
        invariant RingInv(s0, root, Ring(queue[..], head, tail, visited[..]), pending, order, deficit)
        invariant forall k :: 0 <= k < |order| ==> 0 <= order[k] < n
        invariant Nodes() == ApplyRules(Seed(s0, root), order, fl)
        decreases n - |order|, |pending|
      {
        head, tail, pending, order, deficit := DrainStep(queue, visited, head, tail, fl, s0, root, pending, order, deficit);
      }
      ExitCovers(s0, root, Ring(queue[..], head, tail, visited[..]), pending, order, deficit);
    }

    /** One iteration of the while loop of `val_backward`, carrying the
        loop invariant and the processed nodes along: either one more node
        is processed, or a visited entry leaves the queue. */
    method DrainStep(queue: array<int>, visited: array<bool>, head: nat, tail: nat, fl: FloatOps,
                     ghost s0: seq<Value>, ghost root: int, ghost pending: seq<int>, ghost order: seq<int>, ghost deficit: nat)
      returns (newHead: nat, newTail: nat, ghost pending': seq<int>, ghost order': seq<int>, ghost deficit': nat)
      requires Valid() && queue.Length == numValues && visited.Length == numValues
      requires WellFormed(s0) && |s0| == numValues && head != tail
      requires RingInv(s0, root, Ring(queue[..], head, tail, visited[..]), pending, order, deficit)
      requires forall k :: 0 <= k < |order| ==> 0 <= order[k] < numValues
      requires Nodes() == ApplyRules(Seed(s0, root), order, fl)
      modifies values, queue, visited
      ensures Valid()
      ensures RingInv(s0, root, Ring(queue[..], newHead, newTail, visited[..]), pending', order', deficit')
      ensures forall k :: 0 <= k < |order'| ==> 0 <= order'[k] < numValues
      ensures Nodes() == ApplyRules(Seed(s0, root), order', fl)
      ensures |order'| == |order| + 1 || (order' == order && |pending'| < |pending|)
    {
      ghost var r := Ring(queue[..], head, tail, visited[..]);
      DrainStepGhost(s0, root, r, pending, order, deficit, Nodes(), fl);
      newHead, newTail := TakeHead(queue, visited, head, tail, fl, s0);
      pending', order', deficit' := NextPending(s0, r, pending), NextOrder(r, pending, order), NextDeficit(s0, r, pending, deficit);
    }
  }

  /** The ghost side of one iteration of the loop of `val_backward`: the
      loop invariant carries over to the stepped ring, and the arena after
      the step is the rules of the extended processing order applied to the
      seeded arena. */
  lemma DrainStepGhost(s0: seq<Value>, root: int, r: Ring, pending: seq<int>, order: seq<int>, deficit: nat,
                       sNow: seq<Value>, fl: FloatOps)
    requires WellFormed(s0) && RingInv(s0, root, r, pending, order, deficit) && r.head != r.tail
    requires forall k :: 0 <= k < |order| ==> 0 <= order[k] < |s0|
    requires sNow == ApplyRules(Seed(s0, root), order, fl)
    ensures CanStep(s0, r) && r.tail < |s0| && SameShape(s0, sNow)
    ensures RingInv(s0, root, RingStep(s0, r), NextPending(s0, r, pending), NextOrder(r, pending, order),
                    NextDeficit(s0, r, pending, deficit))
    ensures var order' := NextOrder(r, pending, order);
      && (forall k :: 0 <= k < |order'| ==> 0 <= order'[k] < |s0|)
      && (if r.visited[r.queue[r.head]] then sNow else LocalRule(sNow, r.queue[r.head], fl))
         == ApplyRules(Seed(s0, root), order', fl)
      && (|order'| == |order| + 1 || (order' == order && |NextPending(s0, r, pending)| < |pending|))
  {
    StepKeepsInvariant(s0, root, r, pending, order, deficit);
    SameShapeTrans(s0, Seed(s0, root), sNow);
    var c := r.queue[r.head];
    var order' := NextOrder(r, pending, order);
    if !r.visited[c] {
      assert order' == order + [c];
      ApplyRulesStep(Seed(s0, root), order, c, fl);
    }
    assert AllReachable(s0, root, order');
  }

  /** What `val_backward` leaves behind, given the nodes it processed: the
      root keeps the seeded gradient 1, since no node reachable from it
      names it as an operand, and a node not reachable from the root keeps
      its record, since no processed node names it. */
  lemma BackwardFrame(s: seq<Value>, root: nat, order: seq<int>, fl: FloatOps)
    requires WellFormed(s) && root < |s|
    requires forall k :: 0 <= k < |order| ==> 0 <= order[k] < |s| && Reachable(s, root, order[k])
    ensures ApplyRules(Seed(s, root), order, fl)[root].grad == 1.0
    ensures forall w :: 0 <= w < |s| && w != root && !Reachable(s, root, w) ==>
              ApplyRules(Seed(s, root), order, fl)[w] == s[w]
  {
    var s1 := Seed(s, root);
    SameShapeKeepsWellFormed(s, s1);
    forall k | 0 <= k < |order| ensures Operands(s1[order[k]]) == Operands(s[order[k]]) {
      assert s1[order[k]] == s[order[k]].(grad := s1[order[k]].grad);
    }
    forall k | 0 <= k < |order| ensures root !in Operands(s1[order[k]]) {
      ReachableBelow(s, root, order[k]);
      assert WellFormedAt(s, order[k]);
    }
    ApplyRulesKeeps(s1, order, fl, root);
    forall w | 0 <= w < |s| && w != root && !Reachable(s, root, w)
      ensures ApplyRules(s1, order, fl)[w] == s[w]
    {
      forall k | 0 <= k < |order| ensures w !in Operands(s1[order[k]]) {
        if w in Operands(s[order[k]]) {
          ReachStep(s, root, order[k], w);
        }
      }
      ApplyRulesKeeps(s1, order, fl, w);
    }
  }
}
