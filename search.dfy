/** The loops of `player::take_action` that only read the tree (agent.h:147-154,
    180-244, 205-220, 258-269, 277-288): counting legal placements, one descent step,
    the random playout, the root's final choice and the fallback picker. */
module Search {
  import opened Wrappers
  import opened Pieces
  import opened Game
  import opened SearchTree

  /** `empty_place`: how many of the cells have a legal placement for `p`, counted by
      trial-applying each move of `order`. */
  method CountLegal<B>(rules: Rules<B>, b: B, p: Piece, order: seq<nat>) returns (n: nat)
    requires IsOrder(order, rules.cells)
    ensures n == |LegalCells(rules, b, p)|
  {
    OrderMembers(order, rules.cells);
    OrderDistinct(order, rules.cells);
    n := 0;
    ghost var acc: set<nat> := {};
    var k := 0;
    while k < |order|
      invariant 0 <= k <= |order|
      invariant n == |acc| && acc <= LegalCells(rules, b, p)
      invariant forall c :: c in acc ==> exists j :: 0 <= j < k && order[j] == c
      invariant forall j :: 0 <= j < k && Legal(rules, b, order[j], p) ==> order[j] in acc
    {
      if Legal(rules, b, order[k], p) {
        assert order[k] !in acc;
        acc := acc + {order[k]};
        n := n + 1;
      }
      k := k + 1;
    }
    forall c | c in LegalCells(rules, b, p) ensures c in acc {
      assert c in order;
    }
    assert acc == LegalCells(rules, b, p);
  }

  /** The first move of `order` that is legal for `p` on `b`, None when there is none:
      the inner loop of the playout and the fallback picker. When `order` is an order of
      all cells, None means `p` is stuck. */
  method FirstLegal<B>(rules: Rules<B>, b: B, p: Piece, order: seq<nat>) returns (r: Option<nat>)
    ensures r.None? <==> forall k :: 0 <= k < |order| ==> !Legal(rules, b, order[k], p)
    ensures r.Some? ==>
              exists k :: 0 <= k < |order| && order[k] == r.value && Legal(rules, b, r.value, p) &&
                forall j :: 0 <= j < k ==> !Legal(rules, b, order[j], p)
    ensures IsOrder(order, rules.cells) ==> (r.None? <==> Stuck(rules, b, p))
  {
    var k := 0;
    while k < |order|
      invariant 0 <= k <= |order|
      invariant forall j :: 0 <= j < k ==> !Legal(rules, b, order[j], p)
    {
      if Legal(rules, b, order[k], p) {
        r := Some(order[k]);
        if IsOrder(order, rules.cells) {
          OrderMembers(order, rules.cells);
          assert order[k] < rules.cells;
        }
        return;
      }
      k := k + 1;
    }
    r := None;
    if IsOrder(order, rules.cells) {
      OrderStuck(rules, b, p, order);
    }
  }

  /** No move of an order of all cells is legal: the side is stuck. */
  lemma OrderStuck<B>(rules: Rules<B>, b: B, p: Piece, order: seq<nat>)
    requires IsOrder(order, rules.cells)
    requires forall k :: 0 <= k < |order| ==> !Legal(rules, b, order[k], p)
    ensures Stuck(rules, b, p)
  {
    OrderMembers(order, rules.cells);
    forall cell: nat | cell < rules.cells ensures !Legal(rules, b, cell, p) {
      assert cell in order;
    }
  }

  /** The random playout from a newly expanded node: the side to move places a legal
      move (the first one in a freshly shuffled order) and hands over, until the side to
      move has no legal placement. Returns that side, the final board, the placements
      made (ghost) and the shuffle counter after the call. */
  method Playout<B(!new)>(rules: Rules<B>, shuffle: (seq<nat>, nat) -> seq<nat>, draws: nat,
                          order: seq<nat>, start: B, mover: Piece)
    returns (loser: Piece, final: B, ghost played: seq<nat>, drawsOut: nat)
    requires Decreasing(rules) && ShuffleOk(shuffle) && IsOrder(order, rules.cells)
    ensures Replay(rules, start, mover, played) == Some(final)
    ensures loser == Flip(mover, |played|)
    ensures Stuck(rules, final, loser)
    ensures drawsOut == draws + |played| + 1
  {
    var loose := false;
    loser := mover;
    var space := order;
    final := start;
    played := [];
    drawsOut := draws;
    while !loose
      invariant IsOrder(space, rules.cells)
      invariant Replay(rules, start, mover, played) == Some(final)
      invariant loser == Flip(mover, |played|)
      invariant loose ==> Stuck(rules, final, loser)
      invariant drawsOut == draws + |played| + (if loose then 1 else 0)
      decreases rules.empties(final), if loose then 0 else 1
    {
      loose := true;
      space := shuffle(space, drawsOut);
      drawsOut := drawsOut + 1;
      var c := FirstLegal(rules, final, loser, space);
      if c.Some? {
        ReplaySnoc(rules, start, mover, played, c.value, final);
        final := rules.place(final, c.value, loser).value;
        played := played + [c.value];
        loser := WhoChange(loser);
        loose := false;
      }
    }
  }

  /** What one pass over the shuffled moves at a node decides (agent.h:185-231). */
  datatype Step<B> =
    | Expand(at: nat, move: nat, after: B)  // first untried legal move, at position `at`
    | Descend(at: nat, move: nat, next: nat) // every move tried or illegal: the best child
    | Terminal                               // no child and no legal move

  /** Children all have known statistics (they were visited at least once). */
  ghost predicate ChildrenVisited<B>(nodes: seq<Node<B>>, id: nat)
    requires id < |nodes|
  {
    forall a :: a in nodes[id].child ==> nodes[id].child[a] < |nodes| && nodes[nodes[id].child[a]].nb > 0
  }

  /** The reference reading of one pass over the moves `order` at node `id`, where
      `side` moves (agent.h:188-231), from position `k` on, `best` being the position of
      the best child seen before `k`: a move with a child is scored and replaces the
      best one only when it scores strictly higher; the first move without a child that
      is legal is expanded, ending the pass; at the end of the moves the best child is
      gone down to, and when there is none the node is terminal. */
  function DecideFrom<B>(rules: Rules<B>, bonus: (int, int) -> real, nodes: seq<Node<B>>, id: nat, side: Piece,
                         order: seq<nat>, k: nat, best: Option<nat>): Step<B>
    requires id < |nodes| && ChildrenVisited(nodes, id) && k <= |order|
    requires best.Some? ==> best.value < |order| && order[best.value] in nodes[id].child
    decreases |order| - k
  {
    var childs := nodes[id].child;
    if k == |order| then
      if best.None? then Terminal else Descend(best.value, order[best.value], childs[order[best.value]])
    else if order[k] in childs then
      if best.None? || Score(bonus, nodes[id].nb, nodes[childs[order[k]]]) > Score(bonus, nodes[id].nb, nodes[childs[order[best.value]]])
      then DecideFrom(rules, bonus, nodes, id, side, order, k + 1, Some(k))
      else DecideFrom(rules, bonus, nodes, id, side, order, k + 1, best)
    else if rules.place(nodes[id].state, order[k], side).Some? then
      Expand(k, order[k], rules.place(nodes[id].state, order[k], side).value)
    else DecideFrom(rules, bonus, nodes, id, side, order, k + 1, best)
  }

  /** What one pass over the moves `order` at node `id` decides. */
  function Decide<B>(rules: Rules<B>, bonus: (int, int) -> real, nodes: seq<Node<B>>, id: nat, side: Piece,
                     order: seq<nat>): Step<B>
    requires id < |nodes| && ChildrenVisited(nodes, id)
  {
    DecideFrom(rules, bonus, nodes, id, side, order, 0, None)
  }

  /** The descent rule, as a property of a step: terminal exactly when no move has a
      child or is legal; an expansion of the first move that has no child and is legal;
      or, when every move is a child or illegal, a child of the highest score, the first
      such in `order`. */
  ghost predicate StepRule<B>(rules: Rules<B>, bonus: (int, int) -> real, nodes: seq<Node<B>>, id: nat, side: Piece,
                              order: seq<nat>, step: Step<B>)
    requires id < |nodes| && ChildrenVisited(nodes, id)
  {
    (step.Terminal? <==>
       forall k :: 0 <= k < |order| ==> order[k] !in nodes[id].child && !Legal(rules, nodes[id].state, order[k], side)) &&
    (step.Expand? ==>
       step.at < |order| && order[step.at] == step.move && step.move !in nodes[id].child &&
       rules.place(nodes[id].state, step.move, side) == Some(step.after) &&
       forall j :: 0 <= j < step.at ==> order[j] in nodes[id].child || !Legal(rules, nodes[id].state, order[j], side)) &&
    (step.Descend? ==>
       (forall k :: 0 <= k < |order| ==> order[k] in nodes[id].child || !Legal(rules, nodes[id].state, order[k], side)) &&
       step.at < |order| && order[step.at] == step.move && step.move in nodes[id].child &&
       step.next == nodes[id].child[step.move] &&
       (forall k :: 0 <= k < |order| && order[k] in nodes[id].child ==>
          Score(bonus, nodes[id].nb, nodes[nodes[id].child[order[k]]]) <= Score(bonus, nodes[id].nb, nodes[step.next])) &&
       (forall j :: 0 <= j < step.at && order[j] in nodes[id].child ==>
          Score(bonus, nodes[id].nb, nodes[nodes[id].child[order[j]]]) < Score(bonus, nodes[id].nb, nodes[step.next])))
  }

  lemma {:induction false} DecideFromRule<B>(rules: Rules<B>, bonus: (int, int) -> real, nodes: seq<Node<B>>, id: nat,
                                             side: Piece, order: seq<nat>, k: nat, best: Option<nat>)
    requires id < |nodes| && ChildrenVisited(nodes, id) && k <= |order|
    requires forall j :: 0 <= j < k ==> order[j] in nodes[id].child || !Legal(rules, nodes[id].state, order[j], side)
    requires best.None? <==> forall j :: 0 <= j < k ==> order[j] !in nodes[id].child
    requires best.Some? ==>
               best.value < k && order[best.value] in nodes[id].child &&
               (forall j :: 0 <= j < k && order[j] in nodes[id].child ==>
                  Score(bonus, nodes[id].nb, nodes[nodes[id].child[order[j]]]) <= Score(bonus, nodes[id].nb, nodes[nodes[id].child[order[best.value]]])) &&
               (forall j :: 0 <= j < best.value && order[j] in nodes[id].child ==>
                  Score(bonus, nodes[id].nb, nodes[nodes[id].child[order[j]]]) < Score(bonus, nodes[id].nb, nodes[nodes[id].child[order[best.value]]]))
    ensures StepRule(rules, bonus, nodes, id, side, order, DecideFrom(rules, bonus, nodes, id, side, order, k, best))
    decreases |order| - k
  {
    var childs := nodes[id].child;
    if k < |order| {
      if order[k] in childs {
        if best.None? || Score(bonus, nodes[id].nb, nodes[childs[order[k]]]) > Score(bonus, nodes[id].nb, nodes[childs[order[best.value]]]) {
          DecideFromRule(rules, bonus, nodes, id, side, order, k + 1, Some(k));
        } else {
          DecideFromRule(rules, bonus, nodes, id, side, order, k + 1, best);
        }
      } else if rules.place(nodes[id].state, order[k], side).None? {
        DecideFromRule(rules, bonus, nodes, id, side, order, k + 1, best);
      }
    }
  }

  /** `Decide` follows the descent rule. */
  lemma DecideRule<B>(rules: Rules<B>, bonus: (int, int) -> real, nodes: seq<Node<B>>, id: nat, side: Piece,
                      order: seq<nat>)
    requires id < |nodes| && ChildrenVisited(nodes, id)
    ensures StepRule(rules, bonus, nodes, id, side, order, Decide(rules, bonus, nodes, id, side, order))
  {
    DecideFromRule(rules, bonus, nodes, id, side, order, 0, None);
  }

  /** Over an order of all cells, going down means that no cell at all holds an untried
      legal move: the source expands before it descends. */
  lemma DescendNoUntried<B>(rules: Rules<B>, bonus: (int, int) -> real, nodes: seq<Node<B>>, id: nat, side: Piece,
                            order: seq<nat>)
    requires id < |nodes| && ChildrenVisited(nodes, id) && IsOrder(order, rules.cells)
    requires Decide(rules, bonus, nodes, id, side, order).Descend?
    ensures forall c: nat :: c < rules.cells ==> c in nodes[id].child || !Legal(rules, nodes[id].state, c, side)
  {
    DecideRule(rules, bonus, nodes, id, side, order);
    OrderMembers(order, rules.cells);
    forall c: nat | c < rules.cells ensures c in nodes[id].child || !Legal(rules, nodes[id].state, c, side) {
      assert c in order;
      var k :| 0 <= k < |order| && order[k] == c;
    }
  }

  /** One descent step from node `id` with `mover` to move, visiting moves in `order`:
      the loop of agent.h:188-231, which computes `Decide`. */
  method ChooseStep<B>(rules: Rules<B>, bonus: (int, int) -> real, nodes: seq<Node<B>>, id: nat,
                       mover: Piece, order: seq<nat>) returns (step: Step<B>)
    requires id < |nodes| && ChildrenVisited(nodes, id)
    ensures step == Decide(rules, bonus, nodes, id, mover, order)
  {
    var childs := nodes[id].child;
    var parentNb := nodes[id].nb;
    var best: Option<nat> := None;   // position in `order` of the best child so far
    var maxV: real := 0.0;
    var k := 0;
    while k < |order|
      invariant 0 <= k <= |order|
      invariant best.Some? ==>
                  best.value < k && order[best.value] in childs &&
                  maxV == Score(bonus, parentNb, nodes[childs[order[best.value]]])
      invariant DecideFrom(rules, bonus, nodes, id, mover, order, k, best) == Decide(rules, bonus, nodes, id, mover, order)
    {
      var m := order[k];
      if m in childs {
        var v := Score(bonus, parentNb, nodes[childs[m]]);
        if best.None? || v > maxV {
          maxV := v;
          best := Some(k);
        }
      } else {
        var after := rules.place(nodes[id].state, m, mover);
        if after.Some? {
          return Expand(k, m, after.value);
        }
      }
      k := k + 1;
    }
    if best.None? {
      step := Terminal;
    } else {
      step := Descend(best.value, order[best.value], childs[order[best.value]]);
    }
  }

  /** What a step at node `id`, where `side` moves, decided with the visiting order
      `order`, as `Decide` gives it: go down along the edge `down`; or expand the untried
      legal move `pending`; or neither, because `side` is stuck. */
  ghost predicate Outcome<B>(rules: Rules<B>, bonus: (int, int) -> real, nodes: seq<Node<B>>, mover: seq<Piece>,
                             id: nat, side: Piece, order: seq<nat>, down: Option<(nat, nat)>, pending: Option<(nat, B)>) {
    id < |nodes| && |mover| == |nodes| && ChildrenVisited(nodes, id) &&
    var d := Decide(rules, bonus, nodes, id, side, order);
    (down.Some? <==> d.Descend?) && (pending.Some? <==> d.Expand?) &&
    (down.Some? ==>
       down.value == (d.move, d.next) && d.move in nodes[id].child && nodes[id].child[d.move] == d.next &&
       id < d.next < |nodes| && mover[d.next] == WhoChange(side)) &&
    (pending.Some? ==>
       pending.value == (d.move, d.after) && d.move < rules.cells && d.move !in nodes[id].child &&
       rules.place(nodes[id].state, d.move, side) == Some(d.after)) &&
    (d.Terminal? ==> Stuck(rules, nodes[id].state, side))
  }

  /** Every step of the path `traj` from its first node, which `who` moves at, is the
      way down `Decide` chooses with the visiting order drawn at that node. */
  ghost predicate Descent<B>(rules: Rules<B>, bonus: (int, int) -> real, nodes: seq<Node<B>>, who: Piece,
                             traj: seq<nat>, acts: seq<nat>, orders: seq<seq<nat>>) {
    |orders| == |traj| && |traj| == |acts| + 1 &&
    forall k :: 0 <= k < |acts| ==>
      traj[k] < |nodes| && ChildrenVisited(nodes, traj[k]) &&
      Decide(rules, bonus, nodes, traj[k], Flip(who, k), orders[k]).Descend? &&
      Decide(rules, bonus, nodes, traj[k], Flip(who, k), orders[k]).move == acts[k]
  }

  /** `orders` are the visiting orders of successive reshuffles of `order`, the first
      with draw `draws`. */
  ghost predicate Shuffled(shuffle: (seq<nat>, nat) -> seq<nat>, order: seq<nat>, draws: nat, orders: seq<seq<nat>>) {
    |orders| > 0 && orders[0] == shuffle(order, draws) &&
    forall k :: 0 <= k < |orders| - 1 ==> orders[k + 1] == shuffle(orders[k], draws + k + 1)
  }

  lemma DescentSnoc<B>(rules: Rules<B>, bonus: (int, int) -> real, nodes: seq<Node<B>>, who: Piece,
                       traj: seq<nat>, acts: seq<nat>, orders: seq<seq<nat>>, next: nat, order: seq<nat>)
    requires Descent(rules, bonus, nodes, who, traj, acts, orders)
    requires traj[|traj| - 1] < |nodes| && ChildrenVisited(nodes, traj[|traj| - 1])
    requires Decide(rules, bonus, nodes, traj[|traj| - 1], Flip(who, |acts|), orders[|orders| - 1]).Descend?
    ensures Descent(rules, bonus, nodes, who, traj + [next],
                    acts + [Decide(rules, bonus, nodes, traj[|traj| - 1], Flip(who, |acts|), orders[|orders| - 1]).move],
                    orders + [order])
  {
    var a := Decide(rules, bonus, nodes, traj[|traj| - 1], Flip(who, |acts|), orders[|orders| - 1]).move;
    var traj', acts', orders' := traj + [next], acts + [a], orders + [order];
    forall k | 0 <= k < |acts'|
      ensures traj'[k] < |nodes| && ChildrenVisited(nodes, traj'[k]) &&
              Decide(rules, bonus, nodes, traj'[k], Flip(who, k), orders'[k]).Descend? &&
              Decide(rules, bonus, nodes, traj'[k], Flip(who, k), orders'[k]).move == acts'[k]
    {
      assert traj'[k] == traj[k] && orders'[k] == orders[k];
    }
  }

  lemma ShuffledSnoc(shuffle: (seq<nat>, nat) -> seq<nat>, order: seq<nat>, draws: nat, orders: seq<seq<nat>>)
    requires Shuffled(shuffle, order, draws, orders)
    ensures Shuffled(shuffle, order, draws, orders + [shuffle(orders[|orders| - 1], draws + |orders|)])
  {
  }

  /** One step of the descent at node `id`, where `side` moves (agent.h:185-231):
      reshuffle the visiting order with draw `draws`, then `ChooseStep` on it. Returns
      the move and child to go down to; or else the first untried legal move, to
      expand; or else neither when `side` is stuck there; and the new order and draw
      counter. */
  method StepAt<B>(rules: Rules<B>, shuffle: (seq<nat>, nat) -> seq<nat>, bonus: (int, int) -> real,
                   nodes: seq<Node<B>>, ghost mover: seq<Piece>, id: nat, side: Piece, order: seq<nat>, draws: nat)
    returns (down: Option<(nat, nat)>, pending: Option<(nat, B)>, order': seq<nat>, draws': nat)
    requires WellShaped(nodes, mover) && AllVisited(nodes) && IsOrder(order, rules.cells) && ShuffleOk(shuffle)
    requires id < |nodes| && mover[id] == side
    ensures IsOrder(order', rules.cells) && order' == shuffle(order, draws) && draws' == draws + 1
    ensures Outcome(rules, bonus, nodes, mover, id, side, order', down, pending)
  {
    order' := shuffle(order, draws);
    draws' := draws + 1;
    var step := ChooseStep(rules, bonus, nodes, id, side, order');
    DecideRule(rules, bonus, nodes, id, side, order');
    match step
    case Terminal =>
      OrderStuck(rules, nodes[id].state, side, order');
      down, pending := None, None;
    case Descend(_, m, next) =>
      down, pending := Some((m, next)), None;
    case Expand(at, m, after) =>
      OrderMembers(order', rules.cells);
      assert order'[at] < rules.cells;
      down, pending := None, Some((m, after));
  }

  /** The state of the descent after the steps along `traj`: the path follows the tree
      from `root` by the descent rule, with the visiting orders `orders` drawn in turn,
      and the step at its last node decided `down` and `pending`. */
  ghost predicate Walking<B>(rules: Rules<B>, shuffle: (seq<nat>, nat) -> seq<nat>, bonus: (int, int) -> real,
                             nodes: seq<Node<B>>, mover: seq<Piece>, root: nat, who: Piece, order: seq<nat>, draws: nat,
                             traj: seq<nat>, acts: seq<nat>, orders: seq<seq<nat>>, whoNow: Piece,
                             down: Option<(nat, nat)>, pending: Option<(nat, B)>, order': seq<nat>, draws': nat) {
    |mover| == |nodes| && Path(nodes, traj, acts) && traj[0] == root &&
    IsOrder(order', rules.cells) && draws' == draws + |traj| &&
    Descent(rules, bonus, nodes, who, traj, acts, orders) &&
    Shuffled(shuffle, order, draws, orders) && order' == orders[|orders| - 1] &&
    whoNow == mover[traj[|traj| - 1]] && whoNow == Flip(who, |traj| - 1) &&
    Outcome(rules, bonus, nodes, mover, traj[|traj| - 1], whoNow, order', down, pending)
  }

  lemma WalkingSnoc<B>(rules: Rules<B>, shuffle: (seq<nat>, nat) -> seq<nat>, bonus: (int, int) -> real,
                       nodes: seq<Node<B>>, mover: seq<Piece>, root: nat, who: Piece, order: seq<nat>, draws: nat,
                       traj: seq<nat>, acts: seq<nat>, orders: seq<seq<nat>>, whoNow: Piece,
                       down: Option<(nat, nat)>, pending: Option<(nat, B)>, order': seq<nat>, draws': nat,
                       down2: Option<(nat, nat)>, pending2: Option<(nat, B)>, order2: seq<nat>)
    requires down.Some?
    requires Walking(rules, shuffle, bonus, nodes, mover, root, who, order, draws,
                     traj, acts, orders, whoNow, down, pending, order', draws')
    requires IsOrder(order2, rules.cells) && order2 == shuffle(order', draws')
    requires Outcome(rules, bonus, nodes, mover, down.value.1, WhoChange(whoNow), order2, down2, pending2)
    ensures Walking(rules, shuffle, bonus, nodes, mover, root, who, order, draws,
                    traj + [down.value.1], acts + [down.value.0], orders + [order2], WhoChange(whoNow),
                    down2, pending2, order2, draws' + 1)
  {
    PathSnoc(nodes, traj, acts, down.value.0);
    DescentSnoc(rules, bonus, nodes, who, traj, acts, orders, down.value.1, order2);
    ShuffledSnoc(shuffle, order, draws, orders);
  }

  /** One step down: the child `down` names joins the path, and the step at it is made. */
  method Advance<B>(rules: Rules<B>, shuffle: (seq<nat>, nat) -> seq<nat>, bonus: (int, int) -> real,
                    nodes: seq<Node<B>>, ghost mover: seq<Piece>, ghost root: nat, ghost who: Piece,
                    ghost order: seq<nat>, ghost draws: nat,
                    traj: seq<nat>, ghost acts: seq<nat>, ghost orders: seq<seq<nat>>, whoNow: Piece,
                    down: Option<(nat, nat)>, ghost pending: Option<(nat, B)>, order': seq<nat>, draws': nat)
    returns (traj2: seq<nat>, ghost acts2: seq<nat>, ghost orders2: seq<seq<nat>>, whoNow2: Piece,
             down2: Option<(nat, nat)>, pending2: Option<(nat, B)>, order2: seq<nat>, draws2: nat)
    requires WellShaped(nodes, mover) && AllVisited(nodes) && ShuffleOk(shuffle) && down.Some?
    requires Walking(rules, shuffle, bonus, nodes, mover, root, who, order, draws,
                     traj, acts, orders, whoNow, down, pending, order', draws')
    ensures Walking(rules, shuffle, bonus, nodes, mover, root, who, order, draws,
                    traj2, acts2, orders2, whoNow2, down2, pending2, order2, draws2)
    ensures traj[|traj| - 1] < traj2[|traj2| - 1] < |nodes|
  {
    var (m, next) := down.value;
    whoNow2 := WhoChange(whoNow);
    down2, pending2, order2, draws2 := StepAt(rules, shuffle, bonus, nodes, mover, next, whoNow2, order', draws');
    WalkingSnoc(rules, shuffle, bonus, nodes, mover, root, who, order, draws,
                traj, acts, orders, whoNow, down, pending, order', draws', down2, pending2, order2);
    traj2 := traj + [next];
    acts2 := acts + [m];
    orders2 := orders + [order2];
  }

  /** The descent of one search iteration (agent.h:180-196, 228-244) down to the node
      where it stops: `StepAt` from `root`, going down to the chosen child until a node
      has an untried legal move (returned in `pending`) or no child and no legal move.
      `orders` are the visiting orders drawn, one per node of the path; every step is
      the way down `Decide` chooses with the order drawn at its node, and the last node's
      step is the expansion or the terminal case `Decide` gives there. Every existing
      node has nb >= 1, so the source's `nb != 0` test only fails at the child the
      expansion adds; this loop stops where that expansion is made. */
  method Walk<B>(rules: Rules<B>, shuffle: (seq<nat>, nat) -> seq<nat>, bonus: (int, int) -> real,
                 nodes: seq<Node<B>>, ghost mover: seq<Piece>, root: nat, who: Piece, order: seq<nat>, draws: nat)
    returns (traj: seq<nat>, ghost acts: seq<nat>, ghost orders: seq<seq<nat>>, whoNow: Piece,
             pending: Option<(nat, B)>, order': seq<nat>, draws': nat)
    requires WellShaped(nodes, mover) && AllVisited(nodes) && IsOrder(order, rules.cells) && ShuffleOk(shuffle)
    requires root < |nodes| && mover[root] == who
    ensures IsOrder(order', rules.cells) && draws' == draws + |traj|
    ensures Path(nodes, traj, acts) && traj[0] == root
    ensures Descent(rules, bonus, nodes, who, traj, acts, orders)
    ensures Shuffled(shuffle, order, draws, orders) && order' == orders[|orders| - 1]
    ensures whoNow == mover[traj[|traj| - 1]] && whoNow == Flip(who, |traj| - 1)
    ensures Outcome(rules, bonus, nodes, mover, traj[|traj| - 1], whoNow, order', None, pending)
  {
    traj := [root];
    acts := [];
    whoNow := who;
    var down;
    down, pending, order', draws' := StepAt(rules, shuffle, bonus, nodes, mover, root, who, order, draws);
    orders := [order'];
    while down.Some?
      invariant Walking(rules, shuffle, bonus, nodes, mover, root, who, order, draws,
                        traj, acts, orders, whoNow, down, pending, order', draws')
      decreases |nodes| - traj[|traj| - 1]
    {
      traj, acts, orders, whoNow, down, pending, order', draws' :=
        Advance(rules, shuffle, bonus, nodes, mover, root, who, order, draws,
                traj, acts, orders, whoNow, down, pending, order', draws');
    }
  }

  /** The root advance (agent.h:258-269): over the root's children in the map's
      iteration order `keys`, the move with the largest `-value / nb`, the first one seen
      on ties; 0 when there are no children. */
  method BestChild<B>(nodes: seq<Node<B>>, children: map<nat, nat>, keys: seq<nat>) returns (best: nat)
    requires forall a :: a in children ==> children[a] < |nodes| && nodes[children[a]].nb > 0
    requires IsEnumeration(keys, children.Keys)
    ensures children == map[] ==> best == 0
    ensures children != map[] ==>
              best in children &&
              (forall a :: a in children ==> Average(nodes[children[a]]) <= Average(nodes[children[best]])) &&
              exists k :: 0 <= k < |keys| && keys[k] == best &&
                forall j :: 0 <= j < k ==> Average(nodes[children[keys[j]]]) < Average(nodes[children[best]])
  {
    best := 0;
    var maxV: Option<real> := None;
    ghost var at := 0;
    var k := 0;
    while k < |keys|
      invariant 0 <= k <= |keys|
      invariant maxV.None? <==> k == 0
      invariant maxV.None? ==> best == 0
      invariant maxV.Some? ==>
                  at < k && keys[at] == best && best in children && maxV.value == Average(nodes[children[best]]) &&
                  (forall j :: 0 <= j < k ==> Average(nodes[children[keys[j]]]) <= maxV.value) &&
                  (forall j :: 0 <= j < at ==> Average(nodes[children[keys[j]]]) < maxV.value)
    {
      var v := Average(nodes[children[keys[k]]]);
      if maxV.None? || v > maxV.value {
        maxV := Some(v);
        best := keys[k];
        at := k;
      }
      k := k + 1;
    }
    if children != map[] {
      var a :| a in children;
      assert a in keys;
      forall a | a in children ensures Average(nodes[children[a]]) <= Average(nodes[children[best]]) {
        var i :| 0 <= i < |keys| && keys[i] == a;
      }
    }
  }
}
