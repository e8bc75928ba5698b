/** The persistent search tree (agent.h:23-57), kept as an arena: nodes are addressed by
    their index in a sequence, and a node's child map holds the indices of its children.
    A child is always created after its parent, so child indices are larger than their
    parent's and the structure is acyclic. */
module SearchTree {
  import opened Wrappers
  import opened Pieces
  import opened Game

  /** `node`: a board snapshot, the accumulated value, the visit count `nb` and the
      children by move index. */
  datatype Node<B> = Node(state: B, value: int, nb: int, child: map<nat, nat>)

  /** The effect of `updateValue(v)` on a node. */
  function Credited<B>(n: Node<B>, v: int): (r: Node<B>)
    ensures r.value - n.value == v && r.nb == n.nb + 1
    ensures r.state == n.state && r.child == n.child
  {
    n.(value := n.value + v, nb := n.nb + 1)
  }

  function Abs(x: int): nat {
    if x < 0 then -x else x
  }

  /** C++ `/` on int, which truncates toward zero (Dafny's `/` is Euclidean). */
  function TruncDiv(a: int, b: int): (q: int)
    requires b > 0
    ensures (a >= 0 ==> q >= 0) && (a <= 0 ==> q <= 0)
    ensures Abs(q) == Abs(a) / b
  {
    if a >= 0 then a / b else -((-a) / b)
  }

  lemma QuotientOfSmall(a: int, b: int)
    requires b > 0 && 0 <= a <= b
    ensures a / b == if a == b then 1 else 0
  {
    if a < b {
      assert a == (a / b) * b + a % b;
      if a / b != 0 {
        MulAtLeast(a / b, b);
      }
    }
  }

  lemma MulAtLeast(q: int, b: int)
    requires b > 0 && q != 0
    ensures q > 0 ==> q * b >= b
    ensures q < 0 ==> q * b <= -b
  {
  }

  /** The exploitation term of the descent score, `-value/nb` in int arithmetic. */
  function Exploit<B>(n: Node<B>): (r: int)
    requires n.nb > 0
    ensures (n.value <= 0 ==> r >= 0) && (n.value >= 0 ==> r <= 0)
    ensures Abs(r) == Abs(n.value) / n.nb
  {
    TruncDiv(-n.value, n.nb)
  }

  /** Since |value| <= nb always holds, the integer quotient is -1, 0 or 1, and it is 0
      unless every visit had the same non-zero outcome. */
  lemma ExploitCollapses<B>(n: Node<B>)
    requires n.nb > 0 && -n.nb <= n.value <= n.nb
    ensures Exploit(n) in {-1, 0, 1}
    ensures -n.nb < n.value < n.nb ==> Exploit(n) == 0
    ensures n.value == n.nb ==> Exploit(n) == -1
    ensures n.value == -n.nb ==> Exploit(n) == 1
  {
    if n.value <= 0 {
      QuotientOfSmall(-n.value, n.nb);
    } else {
      QuotientOfSmall(n.value, n.nb);
    }
  }

  /** The descent score: the exploitation term exactly as the source computes it, plus
      the exploration term `sqrt(2 log(parentNb)) / nb`, which is floating point and is
      supplied by the oracle `bonus`. */
  function Score<B>(bonus: (int, int) -> real, parentNb: int, n: Node<B>): real
    requires n.nb > 0
  {
    (Exploit(n) as real) + bonus(parentNb, n.nb)
  }

  /** Between two children that have neither always won nor always lost, the integer
      exploitation term is 0 for both, so the descent compares them by the exploration
      term alone. */
  lemma ScoreOfUndecided<B>(bonus: (int, int) -> real, parentNb: int, a: Node<B>, b: Node<B>)
    requires a.nb > 0 && -a.nb < a.value < a.nb
    requires b.nb > 0 && -b.nb < b.value < b.nb
    ensures Score(bonus, parentNb, a) <= Score(bonus, parentNb, b) <==> bonus(parentNb, a.nb) <= bonus(parentNb, b.nb)
  {
    ExploitCollapses(a);
    ExploitCollapses(b);
  }

  /** The root's choice compares averages: by cross-multiplication, child a is at least
      as good as child b exactly when -a.value * b.nb >= -b.value * a.nb. */
  lemma AverageOrder<B>(a: Node<B>, b: Node<B>)
    requires a.nb > 0 && b.nb > 0
    ensures Average(b) <= Average(a) <==> -b.value * a.nb <= -a.value * b.nb
  {
    var x, p := -b.value as real, b.nb as real;
    var y, q := -a.value as real, a.nb as real;
    CrossMultiply(x, p, y, q);
    assert x * q == (-b.value * a.nb) as real;
    assert y * p == (-a.value * b.nb) as real;
  }

  lemma CrossMultiply(x: real, p: real, y: real, q: real)
    requires p > 0.0 && q > 0.0
    ensures x / p <= y / q <==> x * q <= y * p
  {
    var pq := p * q;
    assert pq > 0.0;
    assert (x / p) * pq == x * q;
    assert (y / q) * pq == y * p;
    if x / p <= y / q {
      MulRight(x / p, y / q, pq);
    } else {
      MulRight(y / q, x / p, pq);
    }
  }

  lemma MulRight(u: real, w: real, c: real)
    requires c > 0.0 && u <= w
    ensures u * c <= w * c
  {
    assert (w - u) * c >= 0.0;
  }

  /** The decision value of a child at the root, `-value / nb`, as an exact rational. */
  function Average<B>(n: Node<B>): (r: real)
    requires n.nb > 0
    ensures r * (n.nb as real) == -n.value as real
    ensures -n.nb <= n.value <= n.nb ==> -1.0 <= r <= 1.0
  {
    var x, p := -n.value as real, n.nb as real;
    QuotientBounds(x, p);
    x / p
  }

  lemma QuotientBounds(x: real, p: real)
    requires p > 0.0
    ensures (x / p) * p == x
    ensures -p <= x <= p ==> -1.0 <= x / p <= 1.0
  {
    var r := x / p;
    assert r * p == x;
    if -p <= x <= p {
      if r > 1.0 {
        MulRight(1.0, r, p);
      } else if r < -1.0 {
        MulRight(r, -1.0, p);
      }
    }
  }

  /** The sign a node at depth `t` of the trajectory receives: base at even depths,
      -base at odd depths. */
  function Credit(t: nat, base: int): int {
    if t % 2 == 0 then base else -base
  }

  /** What the backpropagation loop hands to depth `t` when it stopped at depth `depth`:
      the base outcome, negated once if `depth` is odd, then negated once per step back
      toward the root. */
  function Handed(base: int, depth: nat, t: nat): (r: int)
    requires t <= depth
    ensures r == base || r == -base
    decreases depth - t
  {
    if t == depth then (if depth % 2 == 1 then -base else base)
    else -Handed(base, depth, t + 1)
  }

  /** The parity flip and the alternating walk together give every depth a fixed sign,
      whatever the length of the trajectory: the root always receives +base and parent
      and child always receive opposite values. */
  lemma {:induction false} HandedIsCredit(base: int, depth: nat, t: nat)
    requires t <= depth
    ensures Handed(base, depth, t) == Credit(t, base)
    decreases depth - t
  {
    if t < depth {
      HandedIsCredit(base, depth, t + 1);
    }
  }

  lemma HandedSigns(base: int, depth: nat, t: nat)
    requires t < depth
    ensures Handed(base, depth, 0) == base
    ensures Handed(base, depth, t + 1) == -Handed(base, depth, t)
  {
    HandedIsCredit(base, depth, 0);
    HandedIsCredit(base, depth, t);
    HandedIsCredit(base, depth, t + 1);
  }

  /** Child indices are valid, larger than their parent's, and sit one ply below it. */
  ghost predicate WellShaped<B>(nodes: seq<Node<B>>, mover: seq<Piece>) {
    |mover| == |nodes| &&
    forall id, a :: 0 <= id < |nodes| && a in nodes[id].child ==>
      id < nodes[id].child[a] < |nodes| && mover[nodes[id].child[a]] == WhoChange(mover[id])
  }

  /** Every edge is a cell of the board whose placement by the side to move at the
      parent is legal and gives the child's board. */
  ghost predicate EdgesLegal<B>(rules: Rules<B>, nodes: seq<Node<B>>, mover: seq<Piece>)
    requires WellShaped(nodes, mover)
  {
    forall id, a :: 0 <= id < |nodes| && a in nodes[id].child ==>
      a < rules.cells && rules.place(nodes[id].state, a, mover[id]) == Some(nodes[nodes[id].child[a]].state)
  }

  /** |value| <= nb: every backpropagated contribution is -1, 0 or 1. */
  ghost predicate AllBounded<B>(nodes: seq<Node<B>>) {
    forall id :: 0 <= id < |nodes| ==> -nodes[id].nb <= nodes[id].value <= nodes[id].nb
  }

  /** The invariant of the tree at all times: well shaped, with legal edges and
      |value| <= nb everywhere. */
  ghost predicate TreeOk<B>(rules: Rules<B>, nodes: seq<Node<B>>, mover: seq<Piece>) {
    WellShaped(nodes, mover) && EdgesLegal(rules, nodes, mover) && AllBounded(nodes)
  }

  /** Every node has been visited at least once (true between search iterations). */
  ghost predicate AllVisited<B>(nodes: seq<Node<B>>) {
    forall id :: 0 <= id < |nodes| ==> nodes[id].nb >= 1
  }

  /** A node whose side to move has no legal placement has no children. */
  lemma StuckNoChildren<B>(rules: Rules<B>, nodes: seq<Node<B>>, mover: seq<Piece>, id: nat)
    requires WellShaped(nodes, mover) && EdgesLegal(rules, nodes, mover) && id < |nodes|
    requires Stuck(rules, nodes[id].state, mover[id])
    ensures nodes[id].child == map[]
  {
    if a :| a in nodes[id].child {
      assert Legal(rules, nodes[id].state, a, mover[id]);
      assert false;
    }
  }

  /** `next` keeps every node of `prev` at its index, with its board and its edges. */
  ghost predicate Extends<B>(prev: seq<Node<B>>, next: seq<Node<B>>) {
    |prev| <= |next| &&
    forall id :: 0 <= id < |prev| ==>
      next[id].state == prev[id].state &&
      forall a :: a in prev[id].child ==> a in next[id].child && next[id].child[a] == prev[id].child[a]
  }

  lemma ExtendsTransitive<B>(a: seq<Node<B>>, b: seq<Node<B>>, c: seq<Node<B>>)
    requires Extends(a, b) && Extends(b, c)
    ensures Extends(a, c)
  {
  }

  /** Changing statistics only keeps the shape and the legality of every edge. */
  lemma SameSkeleton<B>(rules: Rules<B>, prev: seq<Node<B>>, next: seq<Node<B>>, mover: seq<Piece>)
    requires WellShaped(prev, mover) && EdgesLegal(rules, prev, mover)
    requires |next| == |prev|
    requires forall id :: 0 <= id < |prev| ==> next[id].state == prev[id].state && next[id].child == prev[id].child
    ensures WellShaped(next, mover) && EdgesLegal(rules, next, mover)
  {
  }

  /** Appending a node without children keeps every existing edge. */
  lemma AppendKeepsEdges<B>(rules: Rules<B>, nodes: seq<Node<B>>, mover: seq<Piece>, n: Node<B>, side: Piece)
    requires WellShaped(nodes, mover) && EdgesLegal(rules, nodes, mover) && n.child == map[]
    ensures WellShaped(nodes + [n], mover + [side]) && EdgesLegal(rules, nodes + [n], mover + [side])
  {
    var ns, ms := nodes + [n], mover + [side];
    forall id, a | 0 <= id < |ns| && a in ns[id].child
      ensures id < ns[id].child[a] < |ns| && ms[ns[id].child[a]] == WhoChange(ms[id])
    {
      assert id < |nodes|;
    }
    assert WellShaped(ns, ms);
    forall id, a | 0 <= id < |ns| && a in ns[id].child
      ensures a < rules.cells && rules.place(ns[id].state, a, ms[id]) == Some(ns[ns[id].child[a]].state)
    {
      assert id < |nodes|;
    }
  }

  /** Adding one edge that is a legal placement of the parent's mover, to a later node
      one ply below, keeps the tree well shaped and every edge legal. */
  lemma AddEdgeKeepsEdges<B>(rules: Rules<B>, nodes: seq<Node<B>>, mover: seq<Piece>, id: nat, a: nat, c: nat)
    requires WellShaped(nodes, mover) && EdgesLegal(rules, nodes, mover)
    requires id < c < |nodes| && mover[c] == WhoChange(mover[id]) && a < rules.cells
    requires rules.place(nodes[id].state, a, mover[id]) == Some(nodes[c].state)
    ensures WellShaped(nodes[id := nodes[id].(child := nodes[id].child[a := c])], mover)
    ensures EdgesLegal(rules, nodes[id := nodes[id].(child := nodes[id].child[a := c])], mover)
  {
  }

  /** The nodes after an expansion: a fresh node for `after` (value 0, nb 0) appended
      and made the child of `id` under move `a`. */
  function Grown<B>(nodes: seq<Node<B>>, id: nat, a: nat, after: B): (r: seq<Node<B>>)
    requires id < |nodes|
    ensures |r| == |nodes| + 1 && r[|nodes|] == Node(after, 0, 0, map[])
    ensures r[id].child == nodes[id].child[a := |nodes|]
    ensures forall i :: 0 <= i < |nodes| && i != id ==> r[i] == nodes[i]
  {
    var ns := nodes + [Node(after, 0, 0, map[])];
    ns[id := WithChild(ns[id], a, |nodes|)]
  }

  /** An expansion by a legal move that is not yet an edge keeps the tree well shaped,
      every edge legal, every |value| <= nb, and extends the old tree. */
  lemma GrownKeeps<B>(rules: Rules<B>, nodes: seq<Node<B>>, mover: seq<Piece>, id: nat, a: nat, after: B)
    requires WellShaped(nodes, mover) && EdgesLegal(rules, nodes, mover) && AllBounded(nodes)
    requires id < |nodes| && a < rules.cells && a !in nodes[id].child
    requires rules.place(nodes[id].state, a, mover[id]) == Some(after)
    ensures WellShaped(Grown(nodes, id, a, after), mover + [WhoChange(mover[id])])
    ensures EdgesLegal(rules, Grown(nodes, id, a, after), mover + [WhoChange(mover[id])])
    ensures AllBounded(Grown(nodes, id, a, after)) && Extends(nodes, Grown(nodes, id, a, after))
    ensures forall i :: 0 <= i < |nodes| ==>
              Grown(nodes, id, a, after)[i].value == nodes[i].value && Grown(nodes, id, a, after)[i].nb == nodes[i].nb
  {
    var n := Node(after, 0, 0, map[]);
    var side := WhoChange(mover[id]);
    AppendKeepsEdges(rules, nodes, mover, n, side);
    AddEdgeKeepsEdges(rules, nodes + [n], mover + [side], id, a, |nodes|);
  }

  /** `traj` is a path of the tree from `traj[0]` taking the moves `acts`. */
  ghost predicate Path<B>(nodes: seq<Node<B>>, traj: seq<nat>, acts: seq<nat>) {
    |traj| == |acts| + 1 &&
    (forall k :: 0 <= k < |traj| ==> traj[k] < |nodes|) &&
    forall k :: 0 <= k < |acts| ==>
      acts[k] in nodes[traj[k]].child && nodes[traj[k]].child[acts[k]] == traj[k + 1]
  }

  lemma PathSnoc<B>(nodes: seq<Node<B>>, traj: seq<nat>, acts: seq<nat>, a: nat)
    requires Path(nodes, traj, acts) && a in nodes[traj[|traj| - 1]].child
    requires nodes[traj[|traj| - 1]].child[a] < |nodes|
    ensures Path(nodes, traj + [nodes[traj[|traj| - 1]].child[a]], acts + [a])
  {
  }

  lemma PathExtends<B>(prev: seq<Node<B>>, next: seq<Node<B>>, traj: seq<nat>, acts: seq<nat>)
    requires Path(prev, traj, acts) && Extends(prev, next)
    ensures Path(next, traj, acts)
  {
  }

  /** Child ids exceed their parent's, so the ids along a path strictly increase. */
  lemma {:induction false} PathIncreasing<B>(nodes: seq<Node<B>>, mover: seq<Piece>, traj: seq<nat>, acts: seq<nat>)
    requires WellShaped(nodes, mover) && Path(nodes, traj, acts)
    ensures forall k, l :: 0 <= k < l < |traj| ==> traj[k] < traj[l]
  {
    if |acts| > 0 {
      var n := |acts| - 1;
      PathIncreasing(nodes, mover, traj[..n + 1], acts[..n]);
      assert traj[n] < traj[n + 1];
      forall k, l | 0 <= k < l < |traj| ensures traj[k] < traj[l] {
        if l < n + 1 {
          assert traj[..n + 1][k] < traj[..n + 1][l];
        } else if k < n {
          assert traj[..n + 1][k] < traj[..n + 1][n];
        }
      }
    }
  }

  /** The effect of `addNewChild(action, c)` on a node: `child[action] = c`. */
  function WithChild<B>(n: Node<B>, action: nat, c: nat): (r: Node<B>)
    ensures r.child == n.child[action := c] && action in r.child && r.child[action] == c
    ensures r.state == n.state && r.value == n.value && r.nb == n.nb
  {
    n.(child := n.child[action := c])
  }

  /** The lookup half of `findNode`: the first child of `id`, in the map's iteration
      order `keys`, whose board equals `state`. */
  method FindChild<B(==)>(nodes: seq<Node<B>>, id: nat, state: B, keys: seq<nat>) returns (r: Option<nat>)
    requires id < |nodes| && forall a :: a in nodes[id].child ==> nodes[id].child[a] < |nodes|
    requires IsEnumeration(keys, nodes[id].child.Keys)
    ensures r.None? <==> forall a :: a in nodes[id].child ==> nodes[nodes[id].child[a]].state != state
    ensures r.Some? ==>
              exists k :: 0 <= k < |keys| && r.value == nodes[id].child[keys[k]] &&
                nodes[r.value].state == state &&
                forall j :: 0 <= j < k ==> nodes[nodes[id].child[keys[j]]].state != state
  {
    var children := nodes[id].child;
    var k := 0;
    while k < |keys|
      invariant 0 <= k <= |keys|
      invariant forall j :: 0 <= j < k ==> nodes[children[keys[j]]].state != state
    {
      if nodes[children[keys[k]]].state == state {
        return Some(children[keys[k]]);
      }
      k := k + 1;
    }
    r := None;
  }

  /** Node k of the distinct trajectory `traj` was credited `Credit(k, base)` (value
      grows by it, nb by 1), and every other node is as it was. */
  ghost predicate CreditedAlong<B>(prev: seq<Node<B>>, next: seq<Node<B>>, traj: seq<nat>, base: int) {
    |next| == |prev| &&
    (forall k :: 0 <= k < |traj| ==> traj[k] < |prev| && next[traj[k]] == Credited(prev[traj[k]], Credit(k, base))) &&
    forall id :: 0 <= id < |prev| && id !in traj ==> next[id] == prev[id]
  }

  /** The backpropagation walk (agent.h:247-255): from the last trajectory node back to
      the root, each node is updated with the handed value, which is negated before
      moving to the parent; the walk starts from `base`, negated once when the last
      depth is odd. */
  method Backpropagate<B>(nodes: seq<Node<B>>, traj: seq<nat>, base: int) returns (ns: seq<Node<B>>)
    requires |traj| > 0 && forall k :: 0 <= k < |traj| ==> traj[k] < |nodes|
    requires forall k, l :: 0 <= k < l < |traj| ==> traj[k] != traj[l]
    ensures CreditedAlong(nodes, ns, traj, base)
  {
    ns := nodes;
    var depth := |traj| - 1;
    var t: int := depth;
    var v := base;
    if t % 2 == 1 {
      v := -v;
    }
    while t >= 0
      invariant -1 <= t <= depth && |ns| == |nodes|
      invariant t >= 0 ==> v == Handed(base, depth, t)
      invariant forall k :: t < k < |traj| ==> ns[traj[k]] == Credited(nodes[traj[k]], Credit(k, base))
      invariant forall id :: 0 <= id < |ns| && (forall k :: t < k < |traj| ==> traj[k] != id) ==> ns[id] == nodes[id]
    {
      HandedIsCredit(base, depth, t);
      ns := ns[traj[t] := Credited(ns[traj[t]], v)];
      v := -v;
      t := t - 1;
    }
  }

  /** Crediting a trajectory keeps the shape, the legality of edges, |value| <= nb when
      |base| <= 1, and leaves every node on it visited. */
  lemma CreditKeeps<B>(rules: Rules<B>, prev: seq<Node<B>>, next: seq<Node<B>>, mover: seq<Piece>, traj: seq<nat>, base: int)
    requires WellShaped(prev, mover) && EdgesLegal(rules, prev, mover) && CreditedAlong(prev, next, traj, base)
    ensures WellShaped(next, mover) && EdgesLegal(rules, next, mover)
    ensures AllBounded(prev) && -1 <= base <= 1 ==> AllBounded(next)
    ensures forall id :: 0 <= id < |prev| ==>
              next[id].state == prev[id].state && next[id].child == prev[id].child && next[id].nb >= prev[id].nb
    ensures forall k :: 0 <= k < |traj| ==> next[traj[k]].nb == prev[traj[k]].nb + 1
  {
    forall id | 0 <= id < |prev|
      ensures next[id].state == prev[id].state && next[id].child == prev[id].child && next[id].nb >= prev[id].nb
      ensures -prev[id].nb <= prev[id].value <= prev[id].nb && -1 <= base <= 1 ==> -next[id].nb <= next[id].value <= next[id].nb
    {
      if id in traj {
        var k :| 0 <= k < |traj| && traj[k] == id;
      }
    }
    SameSkeleton(rules, prev, next, mover);
  }
}
