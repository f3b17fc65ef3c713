/** The node records of the scalar autodiff engine (engine.h) and the
    per-operation gradient rules that `_backward` applies to them. */
module Graph {

  /** The operation tag stored in every node; NOP marks a leaf. */
  datatype Op = NOP | ADD | SUB | NEG | MUL | DIV | POW | RELU

  /** The "no operand" sentinel `size_t(-1)`. It is kept outside the range of
      node indices, so it can never name a node. */
  const NoOperand: int := -1

  /** One arena record: its own index, forward value, gradient accumulator,
      operation and the two operand ids. */
  datatype Value = Value(id: nat, data: real, grad: real, op: Op, opId0: int, opId1: int)

  datatype Option<T> = None | Some(value: T)

  /** The floating-point operations whose results are not total functions on
      the reals: IEEE division (infinities and NaN on a zero divisor) and the
      C library's `pow` and `log`. */
  datatype FloatOps = FloatOps(div: (real, real) -> real, pow: (real, real) -> real, log: real -> real)
  {
    function Div(x: real, y: real): real { div(x, y) }
    function Pow(x: real, y: real): real { pow(x, y) }
    function Log(x: real): real { log(x) }
  }

  /** The forward rule of `val_relu`. */
  function Relu(x: real): (r: real)
    ensures r >= 0.0 && r >= x
    ensures x > 0.0 ==> r == x
  {
    if x > 0.0 then x else 0.0
  }

  /** Operations whose rule in `_backward` dereferences the first operand. */
  predicate UsesOperand0(op: Op) { op != NOP }

  /** Operations whose rule in `_backward` dereferences the second operand. */
  predicate UsesOperand1(op: Op) { op == ADD || op == SUB || op == MUL || op == DIV || op == POW }

  /** Operand ids that a node with index `id` may record: the sentinel or an
      earlier node, and a real node wherever the operation's rule reads one. */
  predicate OperandsOk(op: Op, a: int, b: int, id: nat) {
    && (a == NoOperand || 0 <= a < id)
    && (b == NoOperand || 0 <= b < id)
    && (UsesOperand0(op) ==> a != NoOperand)
    && (UsesOperand1(op) ==> b != NoOperand)
  }

  predicate WellFormedAt(s: seq<Value>, i: nat)
    requires i < |s|
  {
    s[i].id == i && OperandsOk(s[i].op, s[i].opId0, s[i].opId1, i)
  }

  /** The arena invariant: every node's `id` is its index and each recorded
      operand is an earlier node or the sentinel. */
  predicate WellFormed(s: seq<Value>) {
    forall i :: 0 <= i < |s| ==> WellFormedAt(s, i)
  }

  /** The recorded operand ids that are not the sentinel, in slot order:
      exactly what `val_backward` puts on its queue. */
  function Operands(v: Value): (r: seq<int>)
    ensures |r| <= 2
    ensures forall w :: w in r <==> w != NoOperand && (w == v.opId0 || w == v.opId1)
  {
    (if v.opId0 != NoOperand then [v.opId0] else []) + (if v.opId1 != NoOperand then [v.opId1] else [])
  }

  /** `r` differs from `s` at most in gradient fields. */
  predicate SameShape(s: seq<Value>, r: seq<Value>) {
    |r| == |s| && forall j :: 0 <= j < |s| ==> r[j] == s[j].(grad := r[j].grad)
  }

  lemma SameShapeKeepsWellFormed(s: seq<Value>, r: seq<Value>)
    requires WellFormed(s) && SameShape(s, r)
    ensures WellFormed(r)
  {
    forall i | 0 <= i < |r| ensures WellFormedAt(r, i) {
      assert r[i] == s[i].(grad := r[i].grad);
      assert WellFormedAt(s, i);
    }
  }

  lemma SameShapeTrans(s: seq<Value>, r: seq<Value>, t: seq<Value>)
    requires SameShape(s, r) && SameShape(r, t)
    ensures SameShape(s, t)
  {
    forall j | 0 <= j < |s| ensures t[j] == s[j].(grad := t[j].grad) {
      assert r[j] == s[j].(grad := r[j].grad);
      assert t[j] == r[j].(grad := t[j].grad);
    }
  }

  /** `p->grad += delta` on node `j`. */
  function AddGrad(s: seq<Value>, j: int, delta: real): seq<Value>
    requires 0 <= j < |s|
  {
    s[j := s[j].(grad := s[j].grad + delta)]
  }

  /** The amounts the rule of node `i` adds to its first and second operand,
      as engine.h writes them (`g` is the node's gradient; a `-=` is the
      negated amount). SUB takes `g` from both operands, DIV adds
      `a/(b*b)*g` to the second one and POW uses `pow(g, b)`. Every operand
      precedes `i`, so reading the node and its operands before or after the
      first update gives the same gradient and data. */
  function OperandDeltas(s: seq<Value>, i: nat, fl: FloatOps): (r: (real, real))
    requires i < |s| && WellFormedAt(s, i)
    ensures s[i].op == NOP ==> r == (0.0, 0.0)
    ensures !UsesOperand1(s[i].op) ==> r.1 == 0.0
    ensures s[i].grad == 0.0 ==> r == (0.0, 0.0)
  {
    var g := s[i].grad;
    var a := s[i].opId0;
    var b := s[i].opId1;
    match s[i].op
    case NOP => (0.0, 0.0)
    case ADD => (g, g)
    case SUB => (-g, -g)
    case NEG => (-g, 0.0)
    case MUL => (s[b].data * g, s[a].data * g)
    case DIV => (fl.Div(1.0, s[b].data) * g, fl.Div(s[a].data, s[b].data * s[b].data) * g)
    case POW => ((s[b].data * fl.Pow(s[a].data, s[b].data - 1.0)) * g, fl.Pow(g, s[b].data) * fl.Log(s[a].data) * g)
    case RELU => ((if s[a].data > 0.0 then 1.0 else 0.0) * g, 0.0)
  }

  /** `_backward` on node `i`: the first operand's gradient is updated, then
      the second's, for the operations that read them. */
  function LocalRule(s: seq<Value>, i: nat, fl: FloatOps): (r: seq<Value>)
    requires i < |s| && WellFormedAt(s, i)
    ensures SameShape(s, r)
    ensures forall j :: 0 <= j < |s| && j !in Operands(s[i]) ==> r[j] == s[j]
  {
    var d := OperandDeltas(s, i, fl);
    if UsesOperand1(s[i].op) then AddGrad(AddGrad(s, s[i].opId0, d.0), s[i].opId1, d.1)
    else if UsesOperand0(s[i].op) then AddGrad(s, s[i].opId0, d.0)
    else s
  }

  /** What node `j` receives from the rule of node `i`: the amount for each
      operand slot that names `j`, so a node named by both slots, as in
      `c = a + a`, receives both. The node's own gradient is left alone. */
  lemma LocalRuleAdds(s: seq<Value>, i: nat, j: nat, fl: FloatOps)
    requires WellFormed(s) && i < |s| && j < |s|
    ensures var d := OperandDeltas(s, i, fl);
            LocalRule(s, i, fl)[j].grad
            == s[j].grad + (if UsesOperand0(s[i].op) && s[i].opId0 == j then d.0 else 0.0)
                         + (if UsesOperand1(s[i].op) && s[i].opId1 == j then d.1 else 0.0)
    ensures LocalRule(s, i, fl)[i] == s[i]
  {
    assert WellFormedAt(s, i);
  }

  /** ADD passes `g` to each operand. */
  lemma AddRule(s: seq<Value>, i: nat, fl: FloatOps)
    requires WellFormed(s) && i < |s| && s[i].op == ADD && s[i].opId0 != s[i].opId1
    ensures s[i].opId0 >= 0 && s[i].opId1 >= 0
    ensures LocalRule(s, i, fl)[s[i].opId0].grad == s[s[i].opId0].grad + s[i].grad
    ensures LocalRule(s, i, fl)[s[i].opId1].grad == s[s[i].opId1].grad + s[i].grad
  {
    assert WellFormedAt(s, i);
    LocalRuleAdds(s, i, s[i].opId0, fl);
    LocalRuleAdds(s, i, s[i].opId1, fl);
  }

  /** Fan-out: when both operand ids of an ADD name the same node, that node
      gains twice the gradient. */
  lemma AddTwiceSameOperand(s: seq<Value>, i: nat, fl: FloatOps)
    requires WellFormed(s) && i < |s| && s[i].op == ADD && s[i].opId0 == s[i].opId1
    ensures s[i].opId0 >= 0
    ensures LocalRule(s, i, fl)[s[i].opId0].grad == s[s[i].opId0].grad + 2.0 * s[i].grad
  {
    assert WellFormedAt(s, i);
    LocalRuleAdds(s, i, s[i].opId0, fl);
  }

  /** MUL passes `b*g` to `a` and `a*g` to `b`; for `a * a` the node gains `2*a*g`. */
  lemma MulRule(s: seq<Value>, i: nat, fl: FloatOps)
    requires WellFormed(s) && i < |s| && s[i].op == MUL
    ensures s[i].opId0 >= 0 && s[i].opId1 >= 0
    ensures var a, b, g := s[i].opId0, s[i].opId1, s[i].grad;
            var r := LocalRule(s, i, fl);
            && (a != b ==> r[a].grad == s[a].grad + s[b].data * g && r[b].grad == s[b].grad + s[a].data * g)
            && (a == b ==> r[a].grad == s[a].grad + 2.0 * s[a].data * g)
  {
    assert WellFormedAt(s, i);
    LocalRuleAdds(s, i, s[i].opId0, fl);
    LocalRuleAdds(s, i, s[i].opId1, fl);
  }

  /** RELU passes `g` to its operand when the operand's value is positive and
      0 otherwise, and touches no other node. */
  lemma ReluRule(s: seq<Value>, i: nat, fl: FloatOps)
    requires WellFormed(s) && i < |s| && s[i].op == RELU
    ensures s[i].opId0 >= 0
    ensures var a := s[i].opId0;
            LocalRule(s, i, fl)[a].grad == s[a].grad + (if s[a].data > 0.0 then s[i].grad else 0.0)
    ensures forall j :: 0 <= j < |s| && j != s[i].opId0 ==> LocalRule(s, i, fl)[j] == s[j]
  {
    assert WellFormedAt(s, i);
    LocalRuleAdds(s, i, s[i].opId0, fl);
  }

  /** `_backward` applied to the nodes of `order`, first to last. */
  function ApplyRules(s: seq<Value>, order: seq<int>, fl: FloatOps): (r: seq<Value>)
    requires WellFormed(s)
    requires forall k :: 0 <= k < |order| ==> 0 <= order[k] < |s|
    ensures SameShape(s, r) && WellFormed(r)
    decreases |order|
  {
    if order == [] then s
    else
      var prev := ApplyRules(s, order[..|order| - 1], fl);
      var r := LocalRule(prev, order[|order| - 1], fl);
      SameShapeTrans(s, prev, r);
      SameShapeKeepsWellFormed(s, r);
      r
  }

  lemma ApplyRulesStep(s: seq<Value>, order: seq<int>, c: int, fl: FloatOps)
    requires WellFormed(s) && 0 <= c < |s|
    requires forall k :: 0 <= k < |order| ==> 0 <= order[k] < |s|
    ensures ApplyRules(s, order + [c], fl) == LocalRule(ApplyRules(s, order, fl), c, fl)
  {
    assert (order + [c])[..|order|] == order;
  }

  /** A node that no node of `order` names as an operand keeps its record. */
  lemma {:induction false} ApplyRulesKeeps(s: seq<Value>, order: seq<int>, fl: FloatOps, j: nat)
    requires WellFormed(s) && j < |s|
    requires forall k :: 0 <= k < |order| ==> 0 <= order[k] < |s|
    requires forall k :: 0 <= k < |order| ==> j !in Operands(s[order[k]])
    ensures ApplyRules(s, order, fl)[j] == s[j]
    decreases |order|
  {
    if order != [] {
      var init := order[..|order| - 1];
      ApplyRulesKeeps(s, init, fl, j);
      var prev := ApplyRules(s, init, fl);
      var c := order[|order| - 1];
      assert prev[c] == s[c].(grad := prev[c].grad);
      assert Operands(prev[c]) == Operands(s[c]);
    }
  }

  /** The seeding step of `val_backward`: the root's gradient is set to 1. */
  function Seed(s: seq<Value>, root: nat): (r: seq<Value>)
    requires WellFormed(s) && root < |s|
    ensures SameShape(s, r) && WellFormed(r) && r[root].grad == 1.0
    ensures forall j :: 0 <= j < |s| && j != root ==> r[j] == s[j]
  {
    var r := s[root := s[root].(grad := 1.0)];
    SameShapeKeepsWellFormed(s, r);
    r
  }

  /** engine.h grows a full arena with `size_values *= 3; size_values /= 2`.
      This makes room from any capacity of at least 2, which the initial
      capacity 10 of `engine_init` guarantees; capacities 0 and 1 would not
      grow. */
  function Grow(size: nat): (r: nat)
    ensures size >= 2 ==> r > size
    ensures size < 2 ==> r == size
  {
    size * 3 / 2
  }
}
