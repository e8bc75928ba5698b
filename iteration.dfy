/** One search iteration, `playOneSequence` (agent.h:172-256), on the node arena:
    the descent (`Search.Walk`), the expansion with its playout, and the
    backpropagation. */
module Iteration {
  import opened Wrappers
  import opened Pieces
  import opened Game
  import opened SearchTree
  import opened Search

  /** The game that ends an iteration: from `start`, with `side` to move, the
      placements `played` lead to `final`, where `loser`, the side then to move, has no
      legal placement. */
  ghost predicate Finished<B>(rules: Rules<B>, start: B, side: Piece, played: seq<nat>, final: B, loser: Piece) {
    Replay(rules, start, side, played) == Some(final) && loser == Flip(side, |played|) && Stuck(rules, final, loser)
  }

  /** Growing the tree at the last node of a path extends the path to the new node;
      the nodes off the extended path are untouched. */
  lemma GrownPath<B>(rules: Rules<B>, nodes: seq<Node<B>>, mover: seq<Piece>, path: seq<nat>, acts: seq<nat>,
                     m: nat, after: B)
    requires WellShaped(nodes, mover) && EdgesLegal(rules, nodes, mover) && AllBounded(nodes)
    requires Path(nodes, path, acts) && m < rules.cells && m !in nodes[path[|path| - 1]].child
    requires rules.place(nodes[path[|path| - 1]].state, m, mover[path[|path| - 1]]) == Some(after)
    ensures Path(Grown(nodes, path[|path| - 1], m, after), path + [|nodes|], acts + [m])
    ensures forall i :: 0 <= i < |nodes| && i !in path + [|nodes|] ==> Grown(nodes, path[|path| - 1], m, after)[i] == nodes[i]
  {
    var last := path[|path| - 1];
    GrownKeeps(rules, nodes, mover, last, m, after);
    PathExtends(nodes, Grown(nodes, last, m, after), path, acts);
    PathSnoc(Grown(nodes, last, m, after), path, acts, m);
  }

  /** The expansion (agent.h:197-203) at the last node of `path`, where `m` is an
      untried legal move: a node for the board it gives, with value 0 and nb 0 and the
      other side to move, is appended as the child under `m` and ends the path. */
  method ExpandLeaf<B>(rules: Rules<B>, nodes: seq<Node<B>>, ghost mover: seq<Piece>, path: seq<nat>,
                       ghost acts: seq<nat>, m: nat, after: B)
    returns (ns: seq<Node<B>>, ghost ms: seq<Piece>, path': seq<nat>, ghost acts': seq<nat>)
    requires WellShaped(nodes, mover) && EdgesLegal(rules, nodes, mover) && AllBounded(nodes)
    requires Path(nodes, path, acts) && m < rules.cells && m !in nodes[path[|path| - 1]].child
    requires rules.place(nodes[path[|path| - 1]].state, m, mover[path[|path| - 1]]) == Some(after)
    ensures WellShaped(ns, ms) && EdgesLegal(rules, ns, ms) && AllBounded(ns) && Extends(nodes, ns) && mover <= ms
    ensures |ns| == |nodes| + 1 && ns[|nodes|] == Node(after, 0, 0, map[])
    ensures forall i :: 0 <= i < |nodes| ==> ns[i].value == nodes[i].value && ns[i].nb == nodes[i].nb
    ensures Path(ns, path', acts') && path'[0] == path[0] && path'[|path'| - 1] == |nodes| && |path'| == |path| + 1
    ensures forall i :: 0 <= i < |nodes| && i !in path' ==> ns[i] == nodes[i]
    ensures ns == Grown(nodes, path[|path| - 1], m, after) && path' == path + [|nodes|] && acts' == acts + [m]
  {
    var last := path[|path| - 1];
    GrownKeeps(rules, nodes, mover, last, m, after);
    GrownPath(rules, nodes, mover, path, acts, m, after);
    ns := Grown(nodes, last, m, after);
    ms := mover + [WhoChange(mover[last])];
    path' := path + [|nodes|];
    acts' := acts + [m];
  }

  /** The random playout (agent.h:205-220) from the board a path of `depth` edges
      from the root ends at, where the side after `Flip(who, depth)` moves. */
  method Simulate<B(!new)>(rules: Rules<B>, shuffle: (seq<nat>, nat) -> seq<nat>, draws: nat, order: seq<nat>,
                           start: B, ghost who: Piece, ghost depth: nat, side: Piece)
    returns (loser: Piece, ghost final: B, ghost played: seq<nat>, draws': nat)
    requires Decreasing(rules) && ShuffleOk(shuffle) && IsOrder(order, rules.cells)
    requires side == Flip(who, depth)
    ensures Finished(rules, start, Flip(who, depth + 1), played, final, loser)
    ensures draws' == draws + |played| + 1
  {
    loser, final, played, draws' := Playout(rules, shuffle, draws, order, start, WhoChange(side));
    FlipAfter(who, depth, 0);
  }

  /** How the path `traj` of an iteration was chosen in the tree `nodes`, `ns` being
      the tree after it: when a node was added, the path up to its parent is a descent
      by `Decide` with the visiting orders `orders`, and at the parent `Decide` expanded
      the last move of the path into the added node's board; when none was, the whole
      path is such a descent and `Decide` found its last node terminal. */
  ghost predicate Chosen<B>(rules: Rules<B>, bonus: (int, int) -> real, who: Piece, nodes: seq<Node<B>>,
                            ns: seq<Node<B>>, traj: seq<nat>, acts: seq<nat>, orders: seq<seq<nat>>) {
    |traj| == |acts| + 1 && |nodes| <= |ns| &&
    if |ns| > |nodes| then
      |traj| >= 2 && traj[|traj| - 2] < |nodes| && ChildrenVisited(nodes, traj[|traj| - 2]) &&
      Descent(rules, bonus, nodes, who, traj[..|traj| - 1], acts[..|acts| - 1], orders) &&
      var d := Decide(rules, bonus, nodes, traj[|traj| - 2], Flip(who, |traj| - 2), orders[|orders| - 1]);
      d.Expand? && d.move == acts[|acts| - 1] && d.after == ns[|nodes|].state
    else
      traj[|traj| - 1] < |nodes| && ChildrenVisited(nodes, traj[|traj| - 1]) &&
      Descent(rules, bonus, nodes, who, traj, acts, orders) &&
      Decide(rules, bonus, nodes, traj[|traj| - 1], Flip(who, |traj| - 1), orders[|orders| - 1]).Terminal?
  }

  /** The boards and child maps after an iteration: every old node keeps its board,
      and its children except that the parent of an added node gains it under the last
      move of the path; the added node has no children. */
  ghost predicate Reshaped<B>(nodes: seq<Node<B>>, ns: seq<Node<B>>, traj: seq<nat>, acts: seq<nat>) {
    |traj| == |acts| + 1 && |nodes| <= |ns| &&
    (forall id :: 0 <= id < |nodes| ==>
       ns[id].state == nodes[id].state &&
       ns[id].child == if |ns| > |nodes| && |traj| >= 2 && id == traj[|traj| - 2]
                       then nodes[id].child[acts[|acts| - 1] := |nodes|] else nodes[id].child) &&
    (|ns| > |nodes| ==> ns[|nodes|].child == map[])
  }

  /** What follows the descent (agent.h:197-220): when the walk along `path` ended with
      an untried legal move `pending`, `ExpandLeaf` adds its node and `Simulate` plays
      the game out from it; when it ended at a stuck node, the game is over there. */
  method Grow<B(!new)>(rules: Rules<B>, shuffle: (seq<nat>, nat) -> seq<nat>, bonus: (int, int) -> real,
                       nodes: seq<Node<B>>, ghost mover: seq<Piece>, ghost root: nat, ghost who: Piece,
                       path: seq<nat>, ghost wacts: seq<nat>, ghost orders: seq<seq<nat>>, whoNow: Piece,
                       pending: Option<(nat, B)>, order: seq<nat>, draws: nat)
    returns (grown: seq<Node<B>>, ghost ms: seq<Piece>, draws': nat,
             traj: seq<nat>, ghost acts: seq<nat>, loser: Piece, ghost played: seq<nat>, ghost final: B)
    requires Decreasing(rules) && ShuffleOk(shuffle) && IsOrder(order, rules.cells)
    requires WellShaped(nodes, mover) && EdgesLegal(rules, nodes, mover) && AllBounded(nodes)
    requires root < |nodes| && mover[root] == who
    requires Path(nodes, path, wacts) && path[0] == root
    requires Descent(rules, bonus, nodes, who, path, wacts, orders) && order == orders[|orders| - 1]
    requires whoNow == mover[path[|path| - 1]] && whoNow == Flip(who, |path| - 1)
    requires Outcome(rules, bonus, nodes, mover, path[|path| - 1], whoNow, order, None, pending)
    ensures WellShaped(grown, ms) && EdgesLegal(rules, grown, ms) && AllBounded(grown) && mover <= ms
    ensures Path(grown, traj, acts) && traj[0] == root
    ensures Chosen(rules, bonus, who, nodes, grown, traj, acts, orders)
    ensures Extends(nodes, grown) && |nodes| <= |grown| <= |nodes| + 1
    ensures forall i :: 0 <= i < |nodes| ==> grown[i].value == nodes[i].value && grown[i].nb == nodes[i].nb
    ensures forall i :: 0 <= i < |nodes| && i !in traj ==> grown[i] == nodes[i]
    ensures |grown| > |nodes| ==>
              |traj| >= 2 && traj[|traj| - 1] == |nodes| && grown[|nodes|].value == 0 && grown[|nodes|].nb == 0 &&
              grown == Grown(nodes, traj[|traj| - 2], acts[|acts| - 1], grown[|nodes|].state)
    ensures |grown| <= |nodes| ==> grown == nodes && played == []
    ensures Finished(rules, grown[traj[|traj| - 1]].state, Flip(who, |traj| - 1), played, final, loser)
    ensures !Stuck(rules, nodes[root].state, who) ==> grown[root].child != map[]
    ensures draws' == draws + if |grown| > |nodes| then |played| + 1 else 0
  {
    if pending.Some? {
      var (m, after) := pending.value;
      grown, ms, traj, acts := ExpandLeaf(rules, nodes, mover, path, wacts, m, after);
      assert traj[..|traj| - 1] == path && acts[..|acts| - 1] == wacts;
      loser, final, played, draws' := Simulate(rules, shuffle, draws, order, after, who, |path| - 1, whoNow);
    } else {
      grown, ms, traj, acts, draws' := nodes, mover, path, wacts, draws;
      loser, played, final := whoNow, [], nodes[path[|path| - 1]].state;
      assert Flip(whoNow, 0) == whoNow;
      if root == path[|path| - 1] {
        DecideRule(rules, bonus, nodes, root, who, order);
      }
    }
  }

  /** The descent and the expansion: `Walk` from `root`, where `who` moves, then
      `Grow`. The path is chosen by `Decide` with the successive reshuffles `orders` of
      the visiting order, and ends at the added node or at a stuck node; the tree is
      `nodes` grown by that node, or `nodes` itself. */
  method Select<B(!new)>(rules: Rules<B>, shuffle: (seq<nat>, nat) -> seq<nat>, bonus: (int, int) -> real,
                         nodes: seq<Node<B>>, ghost mover: seq<Piece>, root: nat, who: Piece,
                         order: seq<nat>, draws: nat)
    returns (grown: seq<Node<B>>, ghost ms: seq<Piece>, order': seq<nat>, draws': nat,
             traj: seq<nat>, ghost acts: seq<nat>, ghost orders: seq<seq<nat>>,
             loser: Piece, ghost played: seq<nat>, ghost final: B)
    requires Decreasing(rules) && ShuffleOk(shuffle) && IsOrder(order, rules.cells)
    requires WellShaped(nodes, mover) && EdgesLegal(rules, nodes, mover) && AllBounded(nodes) && AllVisited(nodes)
    requires root < |nodes| && mover[root] == who
    ensures WellShaped(grown, ms) && EdgesLegal(rules, grown, ms) && AllBounded(grown)
    ensures IsOrder(order', rules.cells) && mover <= ms
    ensures Path(grown, traj, acts) && traj[0] == root
    ensures Shuffled(shuffle, order, draws, orders)
    ensures Chosen(rules, bonus, who, nodes, grown, traj, acts, orders)
    ensures Extends(nodes, grown) && |nodes| <= |grown| <= |nodes| + 1
    ensures forall i :: 0 <= i < |nodes| ==> grown[i].value == nodes[i].value && grown[i].nb == nodes[i].nb
    ensures forall i :: 0 <= i < |nodes| && i !in traj ==> grown[i] == nodes[i]
    ensures |grown| > |nodes| ==>
              |traj| >= 2 && traj[|traj| - 1] == |nodes| && grown[|nodes|].value == 0 && grown[|nodes|].nb == 0 &&
              grown == Grown(nodes, traj[|traj| - 2], acts[|acts| - 1], grown[|nodes|].state)
    ensures |grown| <= |nodes| ==> grown == nodes && played == []
    ensures Finished(rules, grown[traj[|traj| - 1]].state, Flip(who, |traj| - 1), played, final, loser)
    ensures !Stuck(rules, nodes[root].state, who) ==> grown[root].child != map[]
    ensures order' == orders[|orders| - 1] && draws' == draws + |orders| + if |grown| > |nodes| then |played| + 1 else 0
  {
    var path, whoNow, pending, d;
    ghost var wacts;
    path, wacts, orders, whoNow, pending, order', d := Walk(rules, shuffle, bonus, nodes, mover, root, who, order, draws);
    grown, ms, draws', traj, acts, loser, played, final :=
      Grow(rules, shuffle, bonus, nodes, mover, root, who, path, wacts, orders, whoNow, pending, order', d);
  }

  /** The backpropagation (agent.h:247-255) after `Select`: every node of the path
      gains one visit, and node k of it is credited `Credit(k, base)`. A node the
      expansion added, unvisited until now, is then visited once; the nodes off the
      path are unchanged. */
  method Reward<B>(rules: Rules<B>, ghost nodes: seq<Node<B>>, grown: seq<Node<B>>, ghost ms: seq<Piece>,
                   traj: seq<nat>, ghost acts: seq<nat>, base: int)
    returns (ns: seq<Node<B>>)
    requires WellShaped(grown, ms) && EdgesLegal(rules, grown, ms) && AllBounded(grown) && AllVisited(nodes)
    requires Path(grown, traj, acts) && -1 <= base <= 1
    requires |nodes| <= |grown| <= |nodes| + 1
    requires forall i :: 0 <= i < |nodes| ==> grown[i].nb == nodes[i].nb
    requires |grown| > |nodes| ==> traj[|traj| - 1] == |nodes| && grown[|nodes|].nb == 0
    ensures WellShaped(ns, ms) && EdgesLegal(rules, ns, ms) && AllBounded(ns) && AllVisited(ns)
    ensures CreditedAlong(grown, ns, traj, base) && Extends(grown, ns)
  {
    PathIncreasing(grown, ms, traj, acts);
    ns := Backpropagate(grown, traj, base);
    CreditKeeps(rules, grown, ns, ms, traj, base);
    VisitedAfterCredit(nodes, grown, ns, traj, base);
  }

  /** What one iteration from `root`, where `who` moves, does to the tree `nodes`
      (giving `ns`): the tree stays well shaped with legal edges and |value| <= nb,
      every node stays visited, and at most one node is added, at the end of the path
      `traj` followed from the root, chosen by `Decide` with the visiting orders
      `orders`, each an order of all cells; only the added node's parent gains a child. That path ends where the
      game `played` ended with `loser` to move and no legal placement; the base value is
      1 when `loser` is not `who`, 0 when it is; every node of the path gains one visit
      and node k of it is credited `Credit(k, base)`; the nodes off the path are
      unchanged. */
  ghost predicate Iterated<B>(rules: Rules<B>, bonus: (int, int) -> real, who: Piece, root: nat,
                              nodes: seq<Node<B>>, mover: seq<Piece>, ns: seq<Node<B>>, ms: seq<Piece>,
                              traj: seq<nat>, acts: seq<nat>, orders: seq<seq<nat>>, base: int,
                              loser: Piece, played: seq<nat>, final: B) {
    TreeOk(rules, ns, ms) && AllVisited(ns) && mover <= ms && Extends(nodes, ns) && |ns| <= |nodes| + 1 &&
    Path(ns, traj, acts) && traj[0] == root &&
    Chosen(rules, bonus, who, nodes, ns, traj, acts, orders) && Reshaped(nodes, ns, traj, acts) &&
    (forall k :: 0 <= k < |orders| ==> IsOrder(orders[k], rules.cells)) &&
    Finished(rules, ns[traj[|traj| - 1]].state, Flip(who, |traj| - 1), played, final, loser) &&
    (|ns| == |nodes| ==> played == []) &&
    base == (if loser != who then 1 else 0) &&
    (forall k :: 0 <= k < |traj| && traj[k] < |nodes| ==>
       ns[traj[k]].value == nodes[traj[k]].value + Credit(k, base) && ns[traj[k]].nb == nodes[traj[k]].nb + 1) &&
    (|ns| > |nodes| ==>
       traj[|traj| - 1] == |nodes| && ns[|nodes|].value == Credit(|traj| - 1, base) && ns[|nodes|].nb == 1) &&
    (forall id :: 0 <= id < |nodes| && id !in traj ==> ns[id] == nodes[id]) &&
    (root < |nodes| && !Stuck(rules, nodes[root].state, who) ==> ns[root].child != map[])
  }

  /** Some iteration from `root`, where `who` moves, turns `nodes` into `ns`. */
  ghost predicate IteratedOnce<B(!new)>(rules: Rules<B>, bonus: (int, int) -> real, who: Piece, root: nat,
                                  nodes: seq<Node<B>>, mover: seq<Piece>, ns: seq<Node<B>>, ms: seq<Piece>) {
    exists traj, acts, orders, base, loser, played, final ::
      Iterated(rules, bonus, who, root, nodes, mover, ns, ms, traj, acts, orders, base, loser, played, final)
  }

  /** The credit changes no board and no child map, so what `Select` chose and grew is
      what the iteration chose and grew. */
  lemma CreditReshapes<B>(rules: Rules<B>, bonus: (int, int) -> real, who: Piece, nodes: seq<Node<B>>,
                          grown: seq<Node<B>>, ns: seq<Node<B>>, traj: seq<nat>, acts: seq<nat>,
                          orders: seq<seq<nat>>, base: int)
    requires Chosen(rules, bonus, who, nodes, grown, traj, acts, orders)
    requires |grown| > |nodes| ==>
               |traj| >= 2 && traj[|traj| - 1] == |nodes| &&
               grown == Grown(nodes, traj[|traj| - 2], acts[|acts| - 1], grown[|nodes|].state)
    requires |grown| <= |nodes| ==> grown == nodes
    requires CreditedAlong(grown, ns, traj, base)
    ensures Chosen(rules, bonus, who, nodes, ns, traj, acts, orders) && Reshaped(nodes, ns, traj, acts)
  {
    forall id | 0 <= id < |grown| ensures ns[id].state == grown[id].state && ns[id].child == grown[id].child {
      if id !in traj {
        assert ns[id] == grown[id];
      } else {
        var k :| 0 <= k < |traj| && traj[k] == id;
        assert ns[traj[k]] == Credited(grown[traj[k]], Credit(k, base));
      }
    }
  }

  /** A whole iteration from `root`, where `who` moves: `Select`, then `Reward`. The
      visiting orders of the descent are successive reshuffles of `order`. */
  method Iterate<B(!new)>(rules: Rules<B>, shuffle: (seq<nat>, nat) -> seq<nat>, bonus: (int, int) -> real,
                          nodes: seq<Node<B>>, ghost mover: seq<Piece>, root: nat, who: Piece,
                          order: seq<nat>, draws: nat)
    returns (ns: seq<Node<B>>, ghost ms: seq<Piece>, order': seq<nat>, draws': nat,
             traj: seq<nat>, ghost acts: seq<nat>, ghost orders: seq<seq<nat>>, base: int,
             loser: Piece, ghost played: seq<nat>, ghost final: B)
    requires Decreasing(rules) && ShuffleOk(shuffle) && IsOrder(order, rules.cells)
    requires WellShaped(nodes, mover) && EdgesLegal(rules, nodes, mover) && AllBounded(nodes) && AllVisited(nodes)
    requires root < |nodes| && mover[root] == who
    ensures IsOrder(order', rules.cells) && Shuffled(shuffle, order, draws, orders)
    ensures order' == orders[|orders| - 1] && draws' == draws + |orders| + if |ns| > |nodes| then |played| + 1 else 0
    ensures Iterated(rules, bonus, who, root, nodes, mover, ns, ms, traj, acts, orders, base, loser, played, final)
  {
    var grown;
    grown, ms, order', draws', traj, acts, orders, loser, played, final :=
      Select(rules, shuffle, bonus, nodes, mover, root, who, order, draws);
    base := if loser != who then 1 else 0;
    ns := Reward(rules, nodes, grown, ms, traj, acts, base);
    ShuffledOrders(rules, shuffle, order, draws, orders);
    SelectThenReward(rules, bonus, who, root, nodes, mover, grown, ns, ms, traj, acts, orders, base, loser, played, final);
  }

  /** Successive reshuffles of an order of all cells are orders of all cells. */
  lemma ShuffledOrders<B>(rules: Rules<B>, shuffle: (seq<nat>, nat) -> seq<nat>, order: seq<nat>, draws: nat,
                          orders: seq<seq<nat>>)
    requires ShuffleOk(shuffle) && IsOrder(order, rules.cells) && Shuffled(shuffle, order, draws, orders)
    ensures forall k :: 0 <= k < |orders| ==> IsOrder(orders[k], rules.cells)
  {
    forall k | 0 <= k < |orders| ensures IsOrder(orders[k], rules.cells) {
      ShuffledOrderAt(rules, shuffle, order, draws, orders, k);
    }
  }

  lemma {:induction false} ShuffledOrderAt<B>(rules: Rules<B>, shuffle: (seq<nat>, nat) -> seq<nat>, order: seq<nat>,
                                              draws: nat, orders: seq<seq<nat>>, k: nat)
    requires ShuffleOk(shuffle) && IsOrder(order, rules.cells) && Shuffled(shuffle, order, draws, orders)
    requires k < |orders|
    ensures IsOrder(orders[k], rules.cells)
  {
    if k > 0 {
      ShuffledOrderAt(rules, shuffle, order, draws, orders, k - 1);
      assert orders[k] == shuffle(orders[k - 1], draws + k);
    }
  }

  /** `Select` followed by `Reward` is an iteration. */
  lemma SelectThenReward<B>(rules: Rules<B>, bonus: (int, int) -> real, who: Piece, root: nat,
                            nodes: seq<Node<B>>, mover: seq<Piece>, grown: seq<Node<B>>, ns: seq<Node<B>>, ms: seq<Piece>,
                            traj: seq<nat>, acts: seq<nat>, orders: seq<seq<nat>>, base: int,
                            loser: Piece, played: seq<nat>, final: B)
    requires AllVisited(nodes) && root < |nodes|
    requires WellShaped(grown, ms) && Path(grown, traj, acts) && traj[0] == root && mover <= ms
    requires Chosen(rules, bonus, who, nodes, grown, traj, acts, orders)
    requires Extends(nodes, grown) && |nodes| <= |grown| <= |nodes| + 1
    requires forall i :: 0 <= i < |nodes| ==> grown[i].value == nodes[i].value && grown[i].nb == nodes[i].nb
    requires forall i :: 0 <= i < |nodes| && i !in traj ==> grown[i] == nodes[i]
    requires |grown| > |nodes| ==>
               |traj| >= 2 && traj[|traj| - 1] == |nodes| && grown[|nodes|].value == 0 && grown[|nodes|].nb == 0 &&
               grown == Grown(nodes, traj[|traj| - 2], acts[|acts| - 1], grown[|nodes|].state)
    requires |grown| <= |nodes| ==> grown == nodes && played == []
    requires Finished(rules, grown[traj[|traj| - 1]].state, Flip(who, |traj| - 1), played, final, loser)
    requires !Stuck(rules, nodes[root].state, who) ==> grown[root].child != map[]
    requires base == (if loser != who then 1 else 0)
    requires TreeOk(rules, ns, ms) && AllVisited(ns) && CreditedAlong(grown, ns, traj, base) && Extends(grown, ns)
    requires forall k :: 0 <= k < |orders| ==> IsOrder(orders[k], rules.cells)
    ensures Iterated(rules, bonus, who, root, nodes, mover, ns, ms, traj, acts, orders, base, loser, played, final)
  {
    CreditReshapes(rules, bonus, who, nodes, grown, ns, traj, acts, orders, base);
    ExtendsTransitive(nodes, grown, ns);
    PathExtends(grown, ns, traj, acts);
    assert ns[traj[|traj| - 1]] == Credited(grown[traj[|traj| - 1]], Credit(|traj| - 1, base));
    assert ns[root] == Credited(grown[root], Credit(0, base));
  }

  /** Every step of an iteration's path is the one the descent rule gives at that node
      for an order of all cells: on the way down the child of highest score, the first
      such, and only once every cell is a child or illegal; the last step of a path
      that added a node is the expansion of the first untried legal move. */
  lemma IteratedFollowsRule<B>(rules: Rules<B>, bonus: (int, int) -> real, who: Piece, root: nat,
                               nodes: seq<Node<B>>, mover: seq<Piece>, ns: seq<Node<B>>, ms: seq<Piece>,
                               traj: seq<nat>, acts: seq<nat>, orders: seq<seq<nat>>, base: int,
                               loser: Piece, played: seq<nat>, final: B, k: nat)
    requires Iterated(rules, bonus, who, root, nodes, mover, ns, ms, traj, acts, orders, base, loser, played, final)
    requires k < |acts|
    ensures k < |orders| && traj[k] < |nodes| && ChildrenVisited(nodes, traj[k]) && IsOrder(orders[k], rules.cells)
    ensures StepRule(rules, bonus, nodes, traj[k], Flip(who, k), orders[k],
                     Decide(rules, bonus, nodes, traj[k], Flip(who, k), orders[k]))
    ensures Decide(rules, bonus, nodes, traj[k], Flip(who, k), orders[k]).move == acts[k]
    ensures k < |acts| - 1 || |ns| == |nodes| ==>
              Decide(rules, bonus, nodes, traj[k], Flip(who, k), orders[k]).Descend? &&
              forall c: nat :: c < rules.cells ==>
                c in nodes[traj[k]].child || !Legal(rules, nodes[traj[k]].state, c, Flip(who, k))
    ensures k == |acts| - 1 && |ns| > |nodes| ==> Decide(rules, bonus, nodes, traj[k], Flip(who, k), orders[k]).Expand?
  {
    if |ns| > |nodes| && k < |acts| - 1 {
      assert traj[..|traj| - 1][k] == traj[k] && acts[..|acts| - 1][k] == acts[k];
    }
    DecideRule(rules, bonus, nodes, traj[k], Flip(who, k), orders[k]);
    if k < |acts| - 1 || |ns| == |nodes| {
      DescendNoUntried(rules, bonus, nodes, traj[k], Flip(who, k), orders[k]);
    }
  }

  /** Expansion comes before descent: when the root has an untried legal move, an
      iteration from it adds a node, as the root's child under an untried legal move. */
  lemma IteratedExpandsAtRoot<B(!new)>(rules: Rules<B>, bonus: (int, int) -> real, who: Piece, root: nat,
                                       nodes: seq<Node<B>>, mover: seq<Piece>, ns: seq<Node<B>>, ms: seq<Piece>, c: nat)
    requires IteratedOnce(rules, bonus, who, root, nodes, mover, ns, ms) && root < |nodes|
    requires c < rules.cells && c !in nodes[root].child && Legal(rules, nodes[root].state, c, who)
    ensures |ns| == |nodes| + 1
    ensures exists m :: m !in nodes[root].child && Legal(rules, nodes[root].state, m, who) &&
                        ns[root].child == nodes[root].child[m := |nodes|]
  {
    var traj, acts, orders, base, loser, played, final :|
      Iterated(rules, bonus, who, root, nodes, mover, ns, ms, traj, acts, orders, base, loser, played, final);
    if |acts| == 0 {
      TerminalAtRoot(rules, bonus, who, root, nodes, ns, traj, acts, orders);
      assert false;
    }
    IteratedFollowsRule(rules, bonus, who, root, nodes, mover, ns, ms, traj, acts, orders, base, loser, played, final, 0);
    if 0 < |acts| - 1 || |ns| == |nodes| {
      assert false;
    }
    var m := acts[0];
    assert traj[|traj| - 2] == root;
    assert ns[root].child == nodes[root].child[m := |nodes|];
  }

  /** An iteration whose path is the root alone found the root terminal: no cell is a
      child there or legal. */
  lemma TerminalAtRoot<B>(rules: Rules<B>, bonus: (int, int) -> real, who: Piece, root: nat,
                          nodes: seq<Node<B>>, ns: seq<Node<B>>, traj: seq<nat>, acts: seq<nat>, orders: seq<seq<nat>>)
    requires Chosen(rules, bonus, who, nodes, ns, traj, acts, orders) && traj == [root] && |orders| == 1
    requires IsOrder(orders[0], rules.cells)
    ensures root < |nodes|
    ensures forall c: nat :: c < rules.cells ==> c !in nodes[root].child && !Legal(rules, nodes[root].state, c, who)
  {
    DecideRule(rules, bonus, nodes, root, who, orders[0]);
    OrderMembers(orders[0], rules.cells);
    forall c: nat | c < rules.cells ensures c !in nodes[root].child && !Legal(rules, nodes[root].state, c, who) {
      assert c in orders[0];
      var k :| 0 <= k < |orders[0]| && orders[0][k] == c;
    }
  }

  /** What an iteration does at the root: its board and side to move stay, it gains
      one visit, and it has a child afterwards unless its side to move is stuck. */
  lemma IteratedRoot<B(!new)>(rules: Rules<B>, bonus: (int, int) -> real, who: Piece, root: nat,
                        nodes: seq<Node<B>>, mover: seq<Piece>, ns: seq<Node<B>>, ms: seq<Piece>)
    requires IteratedOnce(rules, bonus, who, root, nodes, mover, ns, ms)
    requires root < |nodes| && |mover| == |nodes|
    ensures root < |ns| && ns[root].state == nodes[root].state && ns[root].nb == nodes[root].nb + 1
    ensures |ms| == |ns| && ms[root] == mover[root]
    ensures !Stuck(rules, nodes[root].state, who) ==> ns[root].child != map[]
  {
    var traj, acts, orders, base, loser, played, final :|
      Iterated(rules, bonus, who, root, nodes, mover, ns, ms, traj, acts, orders, base, loser, played, final);
    assert traj[0] == root;
  }

  /** `Iterate` as the player's search loop sees it: one iteration from `root` turns
      `nodes` into `ns`, and the visiting order stays an order of all cells. */
  method IterateAtRoot<B(!new)>(rules: Rules<B>, shuffle: (seq<nat>, nat) -> seq<nat>, bonus: (int, int) -> real,
                                nodes: seq<Node<B>>, ghost mover: seq<Piece>, root: nat, who: Piece,
                                order: seq<nat>, draws: nat)
    returns (ns: seq<Node<B>>, ghost ms: seq<Piece>, order': seq<nat>, draws': nat)
    requires Decreasing(rules) && ShuffleOk(shuffle) && IsOrder(order, rules.cells)
    requires TreeOk(rules, nodes, mover) && AllVisited(nodes)
    requires root < |nodes| && mover[root] == who
    ensures IteratedOnce(rules, bonus, who, root, nodes, mover, ns, ms)
    ensures TreeOk(rules, ns, ms) && AllVisited(ns) && IsOrder(order', rules.cells)
  {
    var traj, base, loser;
    ghost var acts, orders, played, final;
    ns, ms, order', draws', traj, acts, orders, base, loser, played, final :=
      Iterate(rules, shuffle, bonus, nodes, mover, root, who, order, draws);
  }

  /** A tree the search passes through, with the side to move at each node. */
  datatype Snapshot<B> = Snapshot(nodes: seq<Node<B>>, mover: seq<Piece>)

  /** Each element of `xs` is related by `step` to the one after it. */
  ghost predicate Chained<T>(step: (T, T) -> bool, xs: seq<T>) {
    forall n :: 0 <= n < |xs| - 1 ==> step(xs[n], xs[n + 1])
  }

  lemma ChainedSnoc<T>(step: (T, T) -> bool, xs: seq<T>, x: T)
    requires Chained(step, xs) && |xs| > 0 && step(xs[|xs| - 1], x)
    ensures Chained(step, xs + [x])
  {
    var ys := xs + [x];
    forall n | 0 <= n < |ys| - 1 ensures step(ys[n], ys[n + 1]) {
      assert ys[n] == xs[n];
      if n < |xs| - 1 {
        assert ys[n + 1] == xs[n + 1];
      }
    }
  }

  /** One iteration from `root`, where `who` moves, as a relation between snapshots. */
  ghost function IterationStep<B(!new)>(rules: Rules<B>, bonus: (int, int) -> real, who: Piece, root: nat)
    : (Snapshot<B>, Snapshot<B>) -> bool
  {
    (s: Snapshot<B>, t: Snapshot<B>) => IteratedOnce(rules, bonus, who, root, s.nodes, s.mover, t.nodes, t.mover)
  }

  /** `hist` are the snapshots of a run of iterations from `root`, where `who` moves:
      each comes from the one before by an iteration. */
  ghost predicate Iterations<B(!new)>(rules: Rules<B>, bonus: (int, int) -> real, who: Piece, root: nat,
                                      hist: seq<Snapshot<B>>) {
    |hist| > 0 && Chained(IterationStep(rules, bonus, who, root), hist)
  }

  /** `IterateAtRoot`, with the snapshots passed through so far, `hist`, extended by
      the tree it gives; the root keeps its board and side to move, gains one visit,
      and has a child afterwards unless its side to move is stuck. */
  method IterateRecorded<B(!new)>(rules: Rules<B>, shuffle: (seq<nat>, nat) -> seq<nat>, bonus: (int, int) -> real,
                                  nodes: seq<Node<B>>, ghost mover: seq<Piece>, root: nat, who: Piece,
                                  order: seq<nat>, draws: nat, ghost hist: seq<Snapshot<B>>)
    returns (ns: seq<Node<B>>, ghost ms: seq<Piece>, order': seq<nat>, draws': nat, ghost hist': seq<Snapshot<B>>)
    requires Decreasing(rules) && ShuffleOk(shuffle) && IsOrder(order, rules.cells)
    requires TreeOk(rules, nodes, mover) && AllVisited(nodes)
    requires root < |nodes| && mover[root] == who
    requires Iterations(rules, bonus, who, root, hist) && hist[|hist| - 1] == Snapshot(nodes, mover)
    ensures TreeOk(rules, ns, ms) && AllVisited(ns) && IsOrder(order', rules.cells)
    ensures Iterations(rules, bonus, who, root, hist') && hist' == hist + [Snapshot(ns, ms)]
    ensures root < |ns| && ns[root].state == nodes[root].state && ms[root] == who
    ensures ns[root].nb == nodes[root].nb + 1 && (!Stuck(rules, nodes[root].state, who) ==> ns[root].child != map[])
  {
    ns, ms, order', draws' := IterateAtRoot(rules, shuffle, bonus, nodes, mover, root, who, order, draws);
    IteratedRoot(rules, bonus, who, root, nodes, mover, ns, ms);
    assert IterationStep(rules, bonus, who, root)(hist[|hist| - 1], Snapshot(ns, ms));
    ChainedSnoc(IterationStep(rules, bonus, who, root), hist, Snapshot(ns, ms));
    hist' := hist + [Snapshot(ns, ms)];
  }

  /** The search loop of `take_action` (agent.h:170-171): `count` iterations from
      `root`, where `who` moves, one after the other on the tree and the visiting order
      they leave. `hist` are the snapshots passed through, from `nodes` to `ns`; the
      root keeps its board, gains `count` visits, and has a child afterwards unless
      `count` is 0 or its side to move is stuck. */
  method RunIterations<B(!new)>(rules: Rules<B>, shuffle: (seq<nat>, nat) -> seq<nat>, bonus: (int, int) -> real,
                                nodes: seq<Node<B>>, ghost mover: seq<Piece>, root: nat, who: Piece,
                                order: seq<nat>, draws: nat, count: nat)
    returns (ns: seq<Node<B>>, ghost ms: seq<Piece>, order': seq<nat>, draws': nat, ghost hist: seq<Snapshot<B>>)
    requires Decreasing(rules) && ShuffleOk(shuffle) && IsOrder(order, rules.cells)
    requires TreeOk(rules, nodes, mover) && AllVisited(nodes)
    requires root < |nodes| && mover[root] == who
    ensures TreeOk(rules, ns, ms) && AllVisited(ns) && IsOrder(order', rules.cells)
    ensures Iterations(rules, bonus, who, root, hist) && |hist| == count + 1
    ensures hist[0] == Snapshot(nodes, mover) && hist[count] == Snapshot(ns, ms)
    ensures root < |ns| && ns[root].state == nodes[root].state && ms[root] == who
    ensures ns[root].nb == nodes[root].nb + count
    ensures count > 0 && !Stuck(rules, nodes[root].state, who) ==> ns[root].child != map[]
  {
    ns, ms, order', draws' := nodes, mover, order, draws;
    hist := [Snapshot(nodes, mover)];
    var n := 0;
    while n < count
      invariant 0 <= n <= count
      invariant TreeOk(rules, ns, ms) && AllVisited(ns) && IsOrder(order', rules.cells)
      invariant Iterations(rules, bonus, who, root, hist) && |hist| == n + 1
      invariant hist[0] == Snapshot(nodes, mover) && hist[n] == Snapshot(ns, ms)
      invariant root < |ns| && ns[root].state == nodes[root].state && ms[root] == who
      invariant ns[root].nb == nodes[root].nb + n
      invariant n > 0 && !Stuck(rules, nodes[root].state, who) ==> ns[root].child != map[]
    {
      ns, ms, order', draws', hist := IterateRecorded(rules, shuffle, bonus, ns, ms, root, who, order', draws', hist);
      n := n + 1;
    }
  }

  /** After the credit, the old nodes, visited before, are still visited, and a node
      added at the end of the path has been visited once. */
  lemma VisitedAfterCredit<B>(nodes: seq<Node<B>>, grown: seq<Node<B>>, ns: seq<Node<B>>, traj: seq<nat>, base: int)
    requires AllVisited(nodes) && |nodes| <= |grown| <= |nodes| + 1 && |traj| > 0
    requires forall i :: 0 <= i < |nodes| ==> grown[i].nb == nodes[i].nb
    requires |grown| > |nodes| ==> traj[|traj| - 1] == |nodes| && grown[|nodes|].nb == 0
    requires CreditedAlong(grown, ns, traj, base)
    ensures AllVisited(ns)
  {
    forall id | 0 <= id < |ns| ensures ns[id].nb >= 1 {
      if id < |nodes| && id !in traj {
        assert ns[id] == grown[id];
      } else if id >= |nodes| {
        assert ns[traj[|traj| - 1]] == Credited(grown[traj[|traj| - 1]], Credit(|traj| - 1, base));
      } else {
        var k :| 0 <= k < |traj| && traj[k] == id;
        assert ns[traj[k]] == Credited(grown[traj[k]], Credit(k, base));
      }
    }
  }
}
