/** The NoGo player (agent.h:113-298): its settings, its search tree with the current
    root, the two visiting orders it shuffles, and `take_action`, which either runs the
    Monte-Carlo tree search or picks a random legal placement. */
module Players {
  import opened Wrappers
  import opened Pieces
  import opened Game
  import opened Config
  import opened PlayerSettings
  import opened SearchTree
  import opened Search
  import opened Iteration
  import opened IterationBudget

  /** `findNode`'s answer at node `at` for `state` (agent.h:43-50), `keys` being the
      node's moves in map order: the first child in that order whose board is `state`;
      or, when no child has that board, `|nodes|`, the place of the new node. */
  ghost predicate Found<B>(nodes: seq<Node<B>>, at: nat, keys: seq<nat>, state: B, r: nat) {
    at < |nodes| && (forall a :: a in nodes[at].child ==> nodes[at].child[a] < |nodes|) &&
    if r < |nodes| then
      exists k :: 0 <= k < |keys| && keys[k] in nodes[at].child && r == nodes[at].child[keys[k]] &&
        nodes[r].state == state &&
        forall j :: 0 <= j < k ==> keys[j] in nodes[at].child && nodes[nodes[at].child[keys[j]]].state != state
    else
      r == |nodes| && forall a :: a in nodes[at].child ==> nodes[nodes[at].child[a]].state != state
  }

  /** What `FindChild` returns when it finds a child is the child `Found` describes. */
  lemma FoundExisting<B>(nodes: seq<Node<B>>, at: nat, keys: seq<nat>, state: B, c: nat)
    requires at < |nodes| && (forall a :: a in nodes[at].child ==> nodes[at].child[a] < |nodes|)
    requires IsEnumeration(keys, nodes[at].child.Keys)
    requires exists k :: 0 <= k < |keys| && c == nodes[at].child[keys[k]] && nodes[c].state == state &&
               forall j :: 0 <= j < k ==> nodes[nodes[at].child[keys[j]]].state != state
    ensures c < |nodes| && Found(nodes, at, keys, state, c)
  {
    var k :| 0 <= k < |keys| && c == nodes[at].child[keys[k]] && nodes[c].state == state &&
             forall j :: 0 <= j < k ==> nodes[nodes[at].child[keys[j]]].state != state;
    assert keys[k] in nodes[at].child;
  }

  /** The tree a search starts from once the root is `r`: `nodes` when `r` is an
      existing node, else `nodes` with a new node for `state`, value 0 and nb 1. */
  function StartTree<B>(nodes: seq<Node<B>>, r: nat, state: B): (t: seq<Node<B>>)
    ensures r < |nodes| ==> t == nodes
    ensures r >= |nodes| ==> |t| == |nodes| + 1 && t[..|nodes|] == nodes && t[|nodes|] == Node(state, 0, 1, map[])
  {
    if r < |nodes| then nodes else nodes + [Node(state, 0, 1, map[])]
  }

  class Player<B(==, !new)> {
    const rules: Rules<B>
    /** `std::shuffle` with the player's engine: the engine state is the draw counter. */
    const shuffle: (seq<nat>, nat) -> seq<nat>
    /** The exploration term of the UCB score, `sqrt(2 log parentNb) / nb`. */
    const bonus: (int, int) -> real
    /** The iteration order of a node's `unordered_map` of children. */
    const enumerate: map<nat, nat> -> seq<nat>
    const who: Piece
    /** The "search" setting at construction, "" when there was none. */
    const playername: string
    var meta: map<string, string>
    /** The placements of `who` the random fallback tries, as cells. */
    var space: seq<nat>
    var moveSpace: seq<nat>
    var draws: nat
    var nodes: seq<Node<B>>
    /** The side to move at each node. */
    ghost var mover: seq<Piece>
    var root: nat

    /** What the search needs of the side and the oracles: placements fill cells, the
        shuffle permutes. */
    ghost predicate Oracles() {
      IsSide(who) && Decreasing(rules) && ShuffleOk(shuffle)
    }

    /** Both visiting orders are orders of all cells. */
    ghost predicate OrdersOk()
      reads this
    {
      IsOrder(space, rules.cells) && IsOrder(moveSpace, rules.cells)
    }

    /** What holds at all times, also in the middle of a search iteration: the oracle
        constraints, the tree invariant and both visiting orders. */
    ghost predicate Sound()
      reads this
    {
      Oracles() && TreeOk(rules, nodes, mover) && OrdersOk()
    }

    /** Between two calls: the map-order oracle lists keys, every node is visited, and
        the root is where the opponent moves (the child just played) or a node without
        children. */
    ghost predicate Valid()
      reads this
    {
      Sound() && EnumerateOk(enumerate) && AllVisited(nodes) &&
      (playername == "MCTS" ==>
         root < |nodes| && (mover[root] == WhoChange(who) || nodes[root].child == map[]))
    }

    /** The part of the constructor that runs once the settings are known to be good:
        both visiting orders are 0 .. cells-1, and a root for the empty board is made
        when a "search" setting exists. */
    constructor (settings: map<string, string>, side: Piece, rules: Rules<B>,
                 shuffle: (seq<nat>, nat) -> seq<nat>, bonus: (int, int) -> real,
                 enumerate: map<nat, nat> -> seq<nat>, initial: B)
      requires IsSide(side) && Decreasing(rules) && ShuffleOk(shuffle) && EnumerateOk(enumerate)
      ensures this.rules == rules && this.shuffle == shuffle && this.bonus == bonus && this.enumerate == enumerate
      ensures meta == settings && who == side && draws == 0
      ensures playername == if "search" in settings then settings["search"] else ""
      ensures space == Cells(rules.cells) && moveSpace == Cells(rules.cells)
      ensures "search" in settings ==> nodes == [Node(initial, 0, 1, map[])] && root == 0
      ensures "search" !in settings ==> nodes == []
      ensures Valid()
    {
      if "search" in settings {
        playername := settings["search"];
        nodes := [Node(initial, 0, 1, map[])];
        mover := [side];
      } else {
        playername := "";
        nodes := [];
        mover := [];
      }
      root := 0;
      this.rules := rules;
      this.shuffle := shuffle;
      this.bonus := bonus;
      this.enumerate := enumerate;
      meta := settings;
      who := side;
      space := Cells(rules.cells);
      moveSpace := Cells(rules.cells);
      draws := 0;
    }

    /** `notify(msg)`: the setting named before the first '=' now has the text after it. */
    method Notify(msg: string)
      modifies this`meta
      ensures meta == Config.Notify(old(meta), msg)
    {
      meta := Config.Notify(meta, msg);
    }

    /** `root->findNode(state)` (agent.h:43-50): the first child of the root, in map
        order, whose board is `state`; or else a new node for `state` with value 0 and
        nb 1, where `who` moves. */
    method FindNode(state: B) returns (r: nat)
      requires Valid() && playername == "MCTS"
      modifies this`nodes, this`mover
      ensures Valid() && r < |nodes| && nodes[r].state == state && mover[r] == who
      ensures Found(old(nodes), root, enumerate(old(nodes)[root].child), state, r)
      ensures nodes == StartTree(old(nodes), r, state)
      ensures mover == if r < old(|nodes|) then old(mover) else old(mover) + [who]
    {
      var keys := enumerate(nodes[root].child);
      var found := FindChild(nodes, root, state, keys);
      match found
      case Some(c) =>
        WhoChangeInvolution(who);
        FoundExisting(nodes, root, keys, state, c);
        r := c;
      case None =>
        AppendKeepsEdges(rules, nodes, mover, Node(state, 0, 1, map[]), who);
        r := |nodes|;
        nodes := nodes + [Node(state, 0, 1, map[])];
        mover := mover + [who];
    }

    /** The iterations of `take_action` in MCTS mode (agent.h:160-171) from the
        current root, which is for `state`: the legal placements of `who` on `state` are
        counted, and as many iterations as `Budget` gives are run from the root
        (`Iteration.RunIterations`), each `playOneSequence` (agent.h:172-256) on the
        player's tree and visiting order. `hist` are the trees the iterations pass
        through. The root then has gained that many visits, and it has children exactly
        when `who` has a legal placement. */
    method SearchFromRoot(ghost state: B) returns (ghost hist: seq<Snapshot<B>>)
      requires Sound() && AllVisited(nodes) && root < |nodes| && nodes[root].state == state && mover[root] == who
      modifies this`nodes, this`mover, this`moveSpace, this`draws
      ensures Sound() && AllVisited(nodes) && space == old(space)
      ensures root < |nodes| && nodes[root].state == state && mover[root] == who
      ensures Iterations(rules, bonus, who, root, hist) && |hist| == Budget(|LegalCells(rules, state, who)|) + 1
      ensures hist[0] == Snapshot(old(nodes), old(mover)) && hist[|hist| - 1] == Snapshot(nodes, mover)
      ensures nodes[root].nb == old(nodes[root].nb) + Budget(|LegalCells(rules, state, who)|)
      ensures Stuck(rules, state, who) <==> nodes[root].child == map[]
    {
      var legal := CountLegal(rules, nodes[root].state, who, moveSpace);
      var ns, order, d;
      ghost var ms;
      ns, ms, order, d, hist := RunIterations(rules, shuffle, bonus, nodes, mover, root, who, moveSpace, draws, Budget(legal));
      nodes, mover, moveSpace, draws := ns, ms, order, d;
      if Stuck(rules, state, who) {
        StuckNoChildren(rules, nodes, mover, root);
      }
    }

    /** The search half of `take_action` in MCTS mode (agent.h:143-171): the root moves
        to the node for `state` (`FindNode`), then `SearchFromRoot`. `hist` are the
        trees the iterations pass through, from the tree `FindNode` left to the final
        one; the root, which had nb 1 when it was new, has gained one visit per
        iteration. */
    method Search(state: B) returns (ghost hist: seq<Snapshot<B>>)
      requires Valid() && playername == "MCTS"
      modifies this`nodes, this`mover, this`moveSpace, this`draws, this`root
      ensures Sound() && AllVisited(nodes) && space == old(space)
      ensures Found(old(nodes), old(root), enumerate(old(nodes)[old(root)].child), state, root)
      ensures root < |nodes| && nodes[root].state == state && mover[root] == who
      ensures Iterations(rules, bonus, who, root, hist) && |hist| == Budget(|LegalCells(rules, state, who)|) + 1
      ensures hist[0].nodes == StartTree(old(nodes), root, state) && hist[|hist| - 1] == Snapshot(nodes, mover)
      ensures nodes[root].nb ==
                (if root < old(|nodes|) then old(nodes)[root].nb else 1) + Budget(|LegalCells(rules, state, who)|)
      ensures Stuck(rules, state, who) <==> nodes[root].child == map[]
    {
      var r := FindNode(state);
      root := r;
      hist := SearchFromRoot(state);
    }

    /** The root advance of `take_action` (agent.h:258-275) after the search from the
        root for `state`: the move is the root child with the largest average
        `-value / nb`, the first in map order on ties, and that child becomes the root;
        when `who` is stuck there is no child, the root stays, and the move is a
        placement on cell 0. */
    method AdvanceRoot(ghost state: B) returns (m: Move)
      requires Sound() && AllVisited(nodes) && EnumerateOk(enumerate) && playername == "MCTS"
      requires root < |nodes| && nodes[root].state == state && mover[root] == who
      requires Stuck(rules, state, who) <==> nodes[root].child == map[]
      modifies this`root
      ensures Valid() && old(root) < |nodes| && m.Place? && m.who == who
      ensures Stuck(rules, state, who) ==> m.cell == 0 && root == old(root)
      ensures !Stuck(rules, state, who) ==>
                Legal(rules, state, m.cell, who) &&
                m.cell in nodes[old(root)].child && root == nodes[old(root)].child[m.cell] &&
                (forall a :: a in nodes[old(root)].child ==> Average(nodes[nodes[old(root)].child[a]]) <= Average(nodes[root])) &&
                exists k :: 0 <= k < |enumerate(nodes[old(root)].child)| && enumerate(nodes[old(root)].child)[k] == m.cell &&
                  forall j :: 0 <= j < k ==>
                    Average(nodes[nodes[old(root)].child[enumerate(nodes[old(root)].child)[j]]]) < Average(nodes[root])
    {
      var children := nodes[root].child;
      var best := BestChild(nodes, children, enumerate(children));
      if best in children {
        root := children[best];
      }
      m := Place(best, who);
    }

    /** The random fallback of `take_action` (agent.h:277-288): the placements are
        reshuffled and the first legal one is returned, or a pass when there is none. */
    method RandomAction(state: B) returns (m: Move)
      requires Valid() && playername != "MCTS"
      modifies this`moveSpace, this`draws, this`space
      ensures Valid() && moveSpace == old(moveSpace)
      ensures space == shuffle(old(space), old(draws)) && draws == old(draws) + 1
      ensures m.Pass? <==> Stuck(rules, state, who)
      ensures m.Place? ==>
                m.who == who &&
                exists k :: 0 <= k < |space| && space[k] == m.cell && Legal(rules, state, m.cell, who) &&
                  forall j :: 0 <= j < k ==> !Legal(rules, state, space[j], who)
    {
      space := shuffle(space, draws);
      draws := draws + 1;
      var r := FirstLegal(rules, state, who, space);
      m := if r.Some? then Place(r.value, who) else Pass;
    }

    /** `take_action(state)` (agent.h:140-289): in MCTS mode `Search` then
        `AdvanceRoot`, where `searched` is the node the search ran from; otherwise
        `RandomAction`. */
    method TakeAction(state: B) returns (m: Move, ghost searched: nat,
                                         ghost hist: seq<Snapshot<B>>)
      requires Valid()
      modifies this`nodes, this`mover, this`moveSpace, this`draws, this`root, this`space
      ensures Valid()
      ensures playername == "MCTS" ==>
                Found(old(nodes), old(root), enumerate(old(nodes)[old(root)].child), state, searched) &&
                Iterations(rules, bonus, who, searched, hist) &&
                |hist| == Budget(|LegalCells(rules, state, who)|) + 1 &&
                hist[0].nodes == StartTree(old(nodes), searched, state) && hist[|hist| - 1] == Snapshot(nodes, mover) &&
                searched < |nodes| && nodes[searched].state == state &&
                nodes[searched].nb ==
                  (if searched < old(|nodes|) then old(nodes)[searched].nb else 1) + Budget(|LegalCells(rules, state, who)|)
      ensures playername == "MCTS" ==> space == old(space)
      ensures playername == "MCTS" ==>
                m.Place? && m.who == who && searched < |nodes| &&
                (Stuck(rules, state, who) ==> m.cell == 0 && root == searched) &&
                (!Stuck(rules, state, who) ==>
                   Legal(rules, state, m.cell, who) &&
                   m.cell in nodes[searched].child && root == nodes[searched].child[m.cell] &&
                   (forall a :: a in nodes[searched].child ==> Average(nodes[nodes[searched].child[a]]) <= Average(nodes[root])) &&
                   exists k :: 0 <= k < |enumerate(nodes[searched].child)| && enumerate(nodes[searched].child)[k] == m.cell &&
                     forall j :: 0 <= j < k ==>
                       Average(nodes[nodes[searched].child[enumerate(nodes[searched].child)[j]]]) < Average(nodes[root]))
      ensures playername != "MCTS" ==>
                nodes == old(nodes) && mover == old(mover) && root == old(root) && moveSpace == old(moveSpace) &&
                space == shuffle(old(space), old(draws)) && draws == old(draws) + 1 &&
                (m.Pass? <==> Stuck(rules, state, who)) &&
                (m.Place? ==>
                   m.who == who &&
                   exists k :: 0 <= k < |space| && space[k] == m.cell && Legal(rules, state, m.cell, who) &&
                     forall j :: 0 <= j < k ==> !Legal(rules, state, space[j], who))
    {
      if playername == "MCTS" {
        hist := Search(state);
        searched := root;
        m := AdvanceRoot(state);
      } else {
        m := RandomAction(state);
        searched, hist := root, [Snapshot(nodes, mover)];
      }
    }
  }

  /** `player(args)` (agent.h:63-72, 117-138): the settings are parsed from the
      defaults followed by `args`; a name containing one of the forbidden characters or
      a role other than "black" and "white" is refused with the error the constructor
      throws; otherwise the player is made for that side. */
  method NewPlayer<B(==, !new)>(args: string, rules: Rules<B>, shuffle: (seq<nat>, nat) -> seq<nat>,
                                bonus: (int, int) -> real, enumerate: map<nat, nat> -> seq<nat>, initial: B)
    returns (r: Result<Player<B>, ConfigError>)
    requires Decreasing(rules) && ShuffleOk(shuffle) && EnumerateOk(enumerate)
    ensures r.Ok? <==> Validate(MetaOf(Tokens(PlayerArgs(args)))).Ok?
    ensures r.Err? ==> Validate(MetaOf(Tokens(PlayerArgs(args)))) == Err(r.error)
    ensures r.Ok? ==>
              fresh(r.value) && r.value.Valid() && r.value.meta == MetaOf(Tokens(PlayerArgs(args))) &&
              r.value.who == Validate(MetaOf(Tokens(PlayerArgs(args)))).value && r.value.rules == rules
    ensures r.Ok? ==>
              r.value.shuffle == shuffle && r.value.bonus == bonus && r.value.enumerate == enumerate &&
              r.value.draws == 0 && r.value.space == Cells(rules.cells) && r.value.moveSpace == Cells(rules.cells) &&
              r.value.playername == (if "search" in r.value.meta then r.value.meta["search"] else "") &&
              ("search" in r.value.meta ==> r.value.nodes == [Node(initial, 0, 1, map[])] && r.value.root == 0) &&
              ("search" !in r.value.meta ==> r.value.nodes == [])
  {
    var meta := ParseMeta(PlayerArgs(args));
    match Validate(meta)
    case Err(e) =>
      r := Err(e);
    case Ok(side) =>
      var p := new Player(meta, side, rules, shuffle, bonus, enumerate, initial);
      r := Ok(p);
  }
}
