/** The traversal of `val_backward` (engine.h): reachability along recorded
    operands, the loop's ring-buffer queue as a value, and the invariant that
    loop keeps. */
module Traversal {
  import opened Graph

  // ---------------------------------------------------------------------
  // The operand graph

  /** `w` is recorded as an operand of node `u`. */
  predicate IsEdge(s: seq<Value>, u: int, w: int) {
    0 <= u < |s| && w in Operands(s[u])
  }

  /** A walk from node `p[0]` along recorded operands. */
  ghost predicate IsPath(s: seq<Value>, p: seq<int>) {
    && |p| > 0
    && 0 <= p[0] < |s|
    && forall k :: 0 <= k < |p| - 1 ==> IsEdge(s, p[k], p[k + 1])
  }

  /** `w` is `root` or an operand, operand of an operand, ... of `root`. */
  ghost predicate Reachable(s: seq<Value>, root: int, w: int) {
    exists p :: IsPath(s, p) && p[0] == root && p[|p| - 1] == w
  }

  /** Acyclicity: along any walk node ids strictly decrease, so no walk visits
      a node twice and no node is reachable from itself by a non-empty walk. */
  lemma {:induction false} PathDescends(s: seq<Value>, p: seq<int>)
    requires WellFormed(s) && IsPath(s, p)
    ensures forall k :: 0 <= k < |p| ==> 0 <= p[k] < |s|
    ensures forall k, m :: 0 <= k < m < |p| ==> p[m] < p[k]
    decreases |p|
  {
    var n := |p|;
    if n > 1 {
      var q := p[..n - 1];
      assert IsPath(s, q) by {
        forall k | 0 <= k < |q| - 1 ensures IsEdge(s, q[k], q[k + 1]) {
          assert IsEdge(s, p[k], p[k + 1]);
        }
      }
      PathDescends(s, q);
      assert IsEdge(s, p[n - 2], p[n - 1]);
      assert WellFormedAt(s, p[n - 2]);
      forall k, m | 0 <= k < m < n ensures p[m] < p[k] {
        if m < n - 1 {
          assert q[m] < q[k];
        } else if k < n - 2 {
          assert q[n - 2] < q[k];
        }
      }
    }
  }

  lemma ReachableSelf(s: seq<Value>, root: int)
    requires 0 <= root < |s|
    ensures Reachable(s, root, root)
  {
    assert IsPath(s, [root]);
  }

  /** Only a node itself and earlier nodes are reachable from it. */
  lemma ReachableBelow(s: seq<Value>, root: int, w: int)
    requires WellFormed(s) && Reachable(s, root, w)
    ensures 0 <= w <= root < |s|
  {
    var p :| IsPath(s, p) && p[0] == root && p[|p| - 1] == w;
    PathDescends(s, p);
  }

  lemma ReachStep(s: seq<Value>, root: int, u: int, w: int)
    requires Reachable(s, root, u) && IsEdge(s, u, w)
    ensures Reachable(s, root, w)
  {
    var p :| IsPath(s, p) && p[0] == root && p[|p| - 1] == u;
    var p' := p + [w];
    assert IsPath(s, p') by {
      forall k | 0 <= k < |p'| - 1 ensures IsEdge(s, p'[k], p'[k + 1]) {
        if k < |p| - 1 {
          assert IsEdge(s, p[k], p[k + 1]);
        }
      }
    }
    assert p'[0] == root && p'[|p'| - 1] == w;
  }

  /** Node 0 of a well-formed arena records no operand, so it is a leaf. */
  lemma FirstNodeIsLeaf(s: seq<Value>)
    requires WellFormed(s) && |s| > 0
    ensures Operands(s[0]) == [] && s[0].op == NOP
  {
    assert WellFormedAt(s, 0);
  }

  /** A walk that starts in `nodes` (or at node 0) stays there when `nodes` is
      closed under operands up to node 0. */
  lemma {:induction false} PathStaysIn(s: seq<Value>, p: seq<int>, nodes: seq<int>)
    requires WellFormed(s) && IsPath(s, p)
    requires p[0] in nodes || p[0] == 0
    requires forall u, w :: u in nodes && IsEdge(s, u, w) ==> w in nodes || w == 0
    ensures p[|p| - 1] in nodes || p[|p| - 1] == 0
    decreases |p|
  {
    var n := |p|;
    if n > 1 {
      var q := p[..n - 1];
      assert IsPath(s, q) by {
        forall k | 0 <= k < |q| - 1 ensures IsEdge(s, q[k], q[k + 1]) {
          assert IsEdge(s, p[k], p[k + 1]);
        }
      }
      PathStaysIn(s, q, nodes);
      assert IsEdge(s, p[n - 2], p[n - 1]);
      if p[n - 2] == 0 {
        FirstNodeIsLeaf(s);
        assert false;
      }
    }
  }

  lemma ClosedCovers(s: seq<Value>, root: int, nodes: seq<int>)
    requires WellFormed(s)
    requires root in nodes || root == 0
    requires forall u, w :: u in nodes && IsEdge(s, u, w) ==> w in nodes || w == 0
    ensures forall w :: Reachable(s, root, w) ==> w in nodes || w == 0
  {
    forall w | Reachable(s, root, w) ensures w in nodes || w == 0 {
      var p :| IsPath(s, p) && p[0] == root && p[|p| - 1] == w;
      PathStaysIn(s, p, nodes);
    }
  }

  // ---------------------------------------------------------------------
  // Counting distinct node ids

  predicate Distinct(o: seq<int>) {
    forall k, m :: 0 <= k < m < |o| ==> o[k] != o[m]
  }

  function Elements(o: seq<int>): set<int> {
    set k | 0 <= k < |o| :: o[k]
  }

  lemma {:induction false} DistinctElements(o: seq<int>)
    requires Distinct(o)
    ensures |Elements(o)| == |o|
    decreases |o|
  {
    if o != [] {
      var init := o[..|o| - 1];
      DistinctElements(init);
      assert Elements(o) == Elements(init) + {o[|o| - 1]};
      assert o[|o| - 1] !in Elements(init);
    }
  }

  /** The ids of `[lo, hi)`. */
  function Range(lo: int, hi: int): (r: set<int>)
    ensures forall j :: j in r <==> lo <= j < hi
    decreases hi - lo
  {
    if lo >= hi then {} else Range(lo, hi - 1) + {hi - 1}
  }

  lemma {:induction false} RangeSize(lo: int, hi: int)
    requires lo <= hi
    ensures |Range(lo, hi)| == hi - lo
    decreases hi - lo
  {
    if lo < hi {
      RangeSize(lo, hi - 1);
      assert hi - 1 !in Range(lo, hi - 1);
    }
  }

  /** Distinct ids drawn from `[lo, hi)` number at most `hi - lo`, and when
      they number exactly that many, every id of the interval occurs. */
  lemma DistinctInRange(o: seq<int>, lo: int, hi: int)
    requires lo <= hi && Distinct(o)
    requires forall k :: 0 <= k < |o| ==> lo <= o[k] < hi
    ensures |o| <= hi - lo
    ensures |o| == hi - lo ==> forall j :: lo <= j < hi ==> j in o
  {
    DistinctElements(o);
    RangeSize(lo, hi);
    var e, r := Elements(o), Range(lo, hi);
    assert e <= r;
    assert r == e + (r - e);
    if |o| == hi - lo {
      assert r - e == {};
      forall j | lo <= j < hi ensures j in o {
        assert j in r;
        var k :| 0 <= k < |o| && o[k] == j;
      }
    }
  }

  // ---------------------------------------------------------------------
  // The ring-buffer queue

  /** `x % n` for `0 <= x < 2n`, without the modulus. */
  function Wrap(x: int, n: int): int {
    if x < n then x else x - n
  }

  lemma ModWrap(x: int, n: int)
    requires 0 <= x < 2 * n
    ensures x % n == Wrap(x, n)
  {
  }

  /** The loop state of `val_backward`: the queue buffer, its `queue_head` and
      `queue_tail`, and the `visited` table. */
  datatype Ring = Ring(queue: seq<int>, head: nat, tail: nat, visited: seq<bool>)

  /** The loop body can run: buffers of `num_values` entries, a head inside
      them and a queued node id. The tail is inside too, except for the
      initial tail 1 of a one-node arena. */
  predicate CanStep(s: seq<Value>, r: Ring) {
    var n := |s|;
    && n > 0 && |r.queue| == n && |r.visited| == n && r.head < n
    && (r.tail < n || (n == 1 && r.tail == 1))
    && 0 <= r.queue[r.head] < n
  }

  /** `queue[queue_tail] = x; queue_tail = (queue_tail + 1) % num_values`,
      skipped for the sentinel. */
  function Enqueue(r: Ring, x: int): (r': Ring)
    requires x == NoOperand || r.tail < |r.queue|
    ensures r'.head == r.head && r'.visited == r.visited && |r'.queue| == |r.queue|
    ensures x == NoOperand ==> r' == r
    ensures x != NoOperand ==>
      && r'.queue[r.tail] == x && r'.tail == (r.tail + 1) % |r.queue|
      && forall k :: 0 <= k < |r.queue| && k != r.tail ==> r'.queue[k] == r.queue[k]
  {
    if x == NoOperand then r
    else r.(queue := r.queue[r.tail := x], tail := (r.tail + 1) % |r.queue|)
  }

  /** One iteration of the while loop of `val_backward` (the call to
      `_backward` aside): take the node at the head; if it is not yet visited,
      mark it and queue its operand ids that are not the sentinel. */
  function RingStep(s: seq<Value>, r: Ring): (r': Ring)
    requires WellFormed(s) && CanStep(s, r)
    ensures r'.head == (r.head + 1) % |s| && |r'.queue| == |s|
    ensures r'.visited == r.visited[r.queue[r.head] := true]
    ensures r.visited[r.queue[r.head]] ==> r'.queue == r.queue && r'.tail == r.tail
  {
    var c := r.queue[r.head];
    var popped := r.(head := (r.head + 1) % |s|);
    if r.visited[c] then popped
    else
      assert WellFormedAt(s, c);
      Enqueue(Enqueue(popped.(visited := r.visited[c := true]), s[c].opId0), s[c].opId1)
  }

  /** The loop's initial state as engine.h sets it up: the root at slot 0,
      `queue_head = 0`, `queue_tail = 1`, nothing visited. The other slots of
      the `malloc`ed queue hold no meaningful value; 0 stands for them. */
  function RingStartAsWritten(s: seq<Value>, root: int): (r: Ring)
    ensures |s| >= 2 ==> r == RingStart(s, root)
    ensures |s| == 1 ==> r.tail == |s|
  {
    Ring(seq(|s|, k => if k == 0 then root else 0), 0, 1, seq(|s|, k => false))
  }

  /** The initial state with the tail reduced modulo `num_values`, as every
      later tail update is: the ring holds the root alone and nothing is
      visited. */
  function RingStart(s: seq<Value>, root: int): (r: Ring)
    requires |s| > 0
    ensures RingHolds(r, [root], |s|)
    ensures |r.visited| == |s| && forall k :: 0 <= k < |s| ==> !r.visited[k]
  {
    Ring(seq(|s|, k => if k == 0 then root else 0), 0, 1 % |s|, seq(|s|, k => false))
  }

  /** As written, `val_backward` on an arena holding a single node never
      returns: after the first iteration `queue_head` is `1 % 1 == 0` while
      `queue_tail` stays 1, and every further iteration leaves the state as it
      is, so the loop condition `queue_head != queue_tail` holds forever. */
  lemma SingleNodeBackwardSpins(s: seq<Value>)
    requires WellFormed(s) && |s| == 1
    ensures CanStep(s, RingStartAsWritten(s, 0))
    ensures var r1 := RingStep(s, RingStartAsWritten(s, 0));
            CanStep(s, r1) && r1.head != r1.tail && RingStep(s, r1) == r1
  {
    FirstNodeIsLeaf(s);
    var r0 := RingStartAsWritten(s, 0);
    assert r0.queue[0] == 0 && !r0.visited[0];
    var r1 := RingStep(s, r0);
    assert r1 == Ring(r0.queue, 0, 1, [true]);
  }

  /** The ring holds `pending`, the entries queued and not yet taken, in
      order from the head; the tail is the first free slot. */
  ghost predicate RingHolds(r: Ring, pending: seq<int>, n: nat) {
    && |r.queue| == n && r.head < n && r.tail < n
    && |pending| <= n
    && r.tail == Wrap(r.head + |pending|, n)
    && forall k :: 0 <= k < |pending| ==> r.queue[Wrap(r.head + k, n)] == pending[k]
  }

  lemma PopKeepsRing(r: Ring, pending: seq<int>, n: nat)
    requires RingHolds(r, pending, n) && |pending| > 0
    ensures r.queue[r.head] == pending[0]
    ensures RingHolds(r.(head := (r.head + 1) % n), pending[1..], n)
  {
    ModWrap(r.head + 1, n);
    var r' := r.(head := (r.head + 1) % n);
    forall k | 0 <= k < |pending| - 1 ensures r'.queue[Wrap(r'.head + k, n)] == pending[1..][k] {
      assert Wrap(r'.head + k, n) == Wrap(r.head + (k + 1), n);
    }
  }

  /** Queuing into a ring that is not full writes a free slot: the entries
      already queued are all still there. */
  lemma EnqueueKeepsRing(r: Ring, pending: seq<int>, n: nat, x: int)
    requires RingHolds(r, pending, n) && |pending| < n
    ensures RingHolds(Enqueue(r, x), if x == NoOperand then pending else pending + [x], n)
  {
    if x != NoOperand {
      ModWrap(r.tail + 1, n);
      var r' := Enqueue(r, x);
      var p' := pending + [x];
      forall k | 0 <= k < |p'| ensures r'.queue[Wrap(r'.head + k, n)] == p'[k] {
        if k < |pending| {
          assert Wrap(r.head + k, n) != r.tail;
        }
      }
    }
  }

  /** Every id in `xs` is a node reachable from `root`. */
  ghost predicate AllReachable(s: seq<Value>, root: int, xs: seq<int>) {
    forall k :: 0 <= k < |xs| ==> 0 <= xs[k] < |s| && Reachable(s, root, xs[k])
  }

  /** The visited table marks exactly the nodes of `order`. */
  predicate Marks(visited: seq<bool>, order: seq<int>) {
    forall j :: 0 <= j < |visited| ==> (visited[j] <==> j in order)
  }

  /** Each operand of a processed node is processed or still queued. */
  ghost predicate Closed(s: seq<Value>, order: seq<int>, pending: seq<int>) {
    forall u, w :: u in order && IsEdge(s, u, w) ==> w in order || w in pending
  }

  /** The counting part: `deficit` is the number of sentinel operand slots
      of processed nodes plus the entries taken for already visited nodes. */
  predicate Counted(root: int, pending: seq<int>, order: seq<int>, deficit: nat) {
    && |pending| + deficit == 1 + |order|
    && (0 in order ==> deficit >= 2)
    && (order == [] ==> pending == [root])
    && (order != [] ==> order[0] == root)
  }

  /** The invariant of the loop of `val_backward` on arena `s` with root
      `root`. Beside the ring holding `pending`, the entries queued and not
      yet taken, `order` lists the nodes whose rule has been applied, each
      once and all reachable; the visited table marks exactly them; and each
      of their operands has been processed or is still queued. */
  ghost predicate RingInv(s: seq<Value>, root: int, r: Ring, pending: seq<int>, order: seq<int>, deficit: nat) {
    var n := |s|;
    && 0 <= root < n
    && |r.visited| == n
    && RingHolds(r, pending, n)
    && AllReachable(s, root, pending)
    && Distinct(order)
    && |order| <= n
    && AllReachable(s, root, order)
    && Marks(r.visited, order)
    && Closed(s, order, pending)
    && Counted(root, pending, order, deficit)
  }

  lemma StartKeepsInvariant(s: seq<Value>, root: int)
    requires WellFormed(s) && 0 <= root < |s|
    ensures RingInv(s, root, RingStart(s, root), [root], [], 0)
  {
    ModWrap(1, |s|);
    ReachableSelf(s, root);
  }

  /** The queue entries left after a step, the nodes processed after it and
      the new deficit. */
  function NextPending(s: seq<Value>, r: Ring, pending: seq<int>): seq<int>
    requires |pending| > 0 && 0 <= pending[0] < |s| && pending[0] < |r.visited|
  {
    var c := pending[0];
    if r.visited[c] then pending[1..] else pending[1..] + Operands(s[c])
  }

  function NextOrder(r: Ring, pending: seq<int>, order: seq<int>): seq<int>
    requires |pending| > 0 && 0 <= pending[0] < |r.visited|
  {
    var c := pending[0];
    if r.visited[c] then order else order + [c]
  }

  function NextDeficit(s: seq<Value>, r: Ring, pending: seq<int>, deficit: nat): nat
    requires |pending| > 0 && 0 <= pending[0] < |s| && pending[0] < |r.visited|
  {
    var c := pending[0];
    if r.visited[c] then deficit + 1 else deficit + 2 - |Operands(s[c])|
  }

  /** A step whose head entry names an already visited node only pops it. */
  lemma StepVisited(s: seq<Value>, root: int, r: Ring, pending: seq<int>, order: seq<int>, deficit: nat)
    requires WellFormed(s) && RingInv(s, root, r, pending, order, deficit)
    requires 0 < |pending| < |s| && r.visited[pending[0]]
    ensures RingInv(s, root, r.(head := (r.head + 1) % |s|), pending[1..], order, deficit + 1)
  {
    PopKeepsRing(r, pending, |s|);
    assert pending[0] in order;
    forall u, w | u in order && IsEdge(s, u, w) ensures w in order || w in pending[1..] {
      if w !in order {
        assert w in pending;
        var k :| 0 <= k < |pending| && pending[k] == w;
        assert pending[1..][k - 1] == w;
      }
    }
  }

  /** The ring part of a step on a new node: its operands are queued after
      the entries still pending. */
  lemma StepNewRing(s: seq<Value>, r: Ring, pending: seq<int>)
    requires WellFormed(s) && CanStep(s, r) && RingHolds(r, pending, |s|)
    requires 0 < |pending| < |s| && r.queue[r.head] == pending[0] && !r.visited[pending[0]]
    ensures RingHolds(RingStep(s, r), pending[1..] + Operands(s[pending[0]]), |s|)
    ensures RingStep(s, r).visited == r.visited[pending[0] := true]
  {
    var n, c := |s|, pending[0];
    PopKeepsRing(r, pending, n);
    assert WellFormedAt(s, c);
    var marked := r.(head := (r.head + 1) % n, visited := r.visited[c := true]);
    assert RingHolds(marked, pending[1..], n);
    EnqueueOperandsKeepsRing(marked, pending[1..], n, s[c]);
  }

  /** Enqueueing both operand slots of `v` appends `Operands(v)`. */
  lemma EnqueueOperandsKeepsRing(r: Ring, p: seq<int>, n: nat, v: Value)
    requires RingHolds(r, p, n) && |p| + 2 <= n
    ensures var r1 := Enqueue(r, v.opId0);
            && (v.opId1 == NoOperand || r1.tail < |r1.queue|)
            && RingHolds(Enqueue(r1, v.opId1), p + Operands(v), n)
  {
    EnqueueKeepsRing(r, p, n, v.opId0);
    var p1 := if v.opId0 == NoOperand then p else p + [v.opId0];
    EnqueueKeepsRing(Enqueue(r, v.opId0), p1, n, v.opId1);
    AppendOperands(p, v);
  }

  /** Appending a node's operands is appending its first operand, if any,
      then its second, if any. */
  lemma AppendOperands(p: seq<int>, v: Value)
    ensures var p1 := if v.opId0 == NoOperand then p else p + [v.opId0];
            p + Operands(v) == if v.opId1 == NoOperand then p1 else p1 + [v.opId1]
  {
    if v.opId0 == NoOperand {
      if v.opId1 == NoOperand {
        assert Operands(v) == [];
      } else {
        assert Operands(v) == [v.opId1];
      }
    } else {
      if v.opId1 == NoOperand {
        assert Operands(v) == [v.opId0];
      } else {
        assert Operands(v) == [v.opId0, v.opId1];
      }
    }
  }

  /** The bookkeeping part of a step on a new node. */
  lemma StepNewOrder(s: seq<Value>, root: int, pending: seq<int>, order: seq<int>)
    requires WellFormed(s) && |pending| > 0 && pending[0] !in order
    requires AllReachable(s, root, pending) && Distinct(order) && AllReachable(s, root, order)
    requires Closed(s, order, pending)
    ensures AllReachable(s, root, pending[1..] + Operands(s[pending[0]]))
    ensures Distinct(order + [pending[0]]) && AllReachable(s, root, order + [pending[0]])
    ensures Closed(s, order + [pending[0]], pending[1..] + Operands(s[pending[0]]))
  {
    var c := pending[0];
    var pending', order' := pending[1..] + Operands(s[c]), order + [c];
    forall k | 0 <= k < |pending'| ensures 0 <= pending'[k] < |s| && Reachable(s, root, pending'[k]) {
      if k >= |pending| - 1 {
        assert pending'[k] == Operands(s[c])[k - (|pending| - 1)];
        assert 0 <= c < |s| && Reachable(s, root, c);
        assert WellFormedAt(s, c);
        assert IsEdge(s, c, pending'[k]);
        ReachStep(s, root, c, pending'[k]);
      } else {
        assert pending'[k] == pending[k + 1];
      }
    }
    forall k, m | 0 <= k < m < |order'| ensures order'[k] != order'[m] {
      if m == |order| {
        assert order'[k] in order;
      }
    }
    forall u, w | u in order' && IsEdge(s, u, w) ensures w in order' || w in pending' {
      if u == c {
        assert w in Operands(s[c]);
      } else if w !in order' {
        assert u in order && w in pending;
        var k :| 0 <= k < |pending| && pending[k] == w;
        assert pending'[k - 1] == w;
      }
    }
  }

  /** A step on a new node keeps the invariant. */
  lemma StepNew(s: seq<Value>, root: int, r: Ring, pending: seq<int>, order: seq<int>, deficit: nat)
    requires WellFormed(s) && RingInv(s, root, r, pending, order, deficit)
    requires CanStep(s, r) && 0 < |pending| < |s| && r.queue[r.head] == pending[0] && !r.visited[pending[0]]
    ensures RingInv(s, root, RingStep(s, r), pending[1..] + Operands(s[pending[0]]),
                    order + [pending[0]], deficit + 2 - |Operands(s[pending[0]])|)
  {
    var c := pending[0];
    StepNewRing(s, r, pending);
    StepNewOrder(s, root, pending, order);
    DistinctInRange(order + [c], 0, |s|);
    if c == 0 {
      FirstNodeIsLeaf(s);
    }
  }

  /** While the loop runs, one step keeps the invariant. In particular the
      ring never overwrites an entry that has not been taken yet: every
      pending entry is still in the new ring, ahead of the entries the step
      adds. */
  lemma StepKeepsInvariant(s: seq<Value>, root: int, r: Ring, pending: seq<int>, order: seq<int>, deficit: nat)
    requires WellFormed(s) && RingInv(s, root, r, pending, order, deficit) && r.head != r.tail
    ensures 0 < |pending| < |s|
    ensures CanStep(s, r) && r.queue[r.head] == pending[0]
    ensures RingInv(s, root, RingStep(s, r), NextPending(s, r, pending),
                    NextOrder(r, pending, order), NextDeficit(s, r, pending, deficit))
    ensures || |NextOrder(r, pending, order)| == |order| + 1
            || (NextOrder(r, pending, order) == order && |NextPending(s, r, pending)| < |pending|)
  {
    var n := |s|;
    assert |pending| != 0 && |pending| != n;
    PopKeepsRing(r, pending, n);
    if r.visited[pending[0]] {
      StepVisited(s, root, r, pending, order, deficit);
    } else {
      StepNew(s, root, r, pending, order, deficit);
    }
  }

  /** When the loop stops, every node reachable from the root has had its
      rule applied, except possibly node 0, which is a leaf. The loop stops
      either with an empty queue or with `num_values` entries still queued;
      the latter happens only once every node but node 0 has been processed. */
  lemma ExitCovers(s: seq<Value>, root: int, r: Ring, pending: seq<int>, order: seq<int>, deficit: nat)
    requires WellFormed(s) && RingInv(s, root, r, pending, order, deficit) && r.head == r.tail
    ensures forall w :: Reachable(s, root, w) ==> w in order || (w == 0 && s[0].op == NOP)
  {
    var n := |s|;
    FirstNodeIsLeaf(s);
    assert |pending| == 0 || |pending| == n;
    if |pending| == 0 {
      assert root in order;
      ClosedCovers(s, root, order);
    } else {
      DistinctInRange(order, 0, n);
      assert 0 !in order;
      DistinctInRange(order, 1, n);
      forall w | Reachable(s, root, w) ensures w in order || w == 0 {
        ReachableBelow(s, root, w);
      }
    }
  }
}
