# NoGo MCTS player, modelled in Dafny

This project models the decision engine of a NoGo player (`agent.h`). The player is
configured from a string of `key=value` settings. Validation refuses a bad name or a
role other than black or white. A move request then does one of two things:

- With `search=MCTS`, it runs a Monte-Carlo tree search over a search tree. The tree
  persists from one move to the next.
- Otherwise, it returns the first legal placement of a freshly shuffled order of the
  cells.

One move request in MCTS mode goes like this:

1. The root moves to the node for the position received.
2. The legal placements are counted, and that count selects an iteration budget.
3. The budget's search iterations are run. Each one descends by a UCB score, expands one
   untried legal move, plays a random game to its end, and credits the trajectory with
   alternating signs.
4. The move is the root child with the best average. That child becomes the new root.

The model is organised by module:

- `Pieces`: sides, moves and `who_change`.
- `Game`: the board collaborators, as oracles.
- `IterationBudget`: the iteration budget.
- `Config` and `PlayerSettings`: the settings string and the player's checks.
- `SearchTree`: the node arena and its updates.
- `Search`: the loops that only read the tree.
- `Iteration`: one search iteration.
- `Players`: the player class with `take_action`.

The board is a type parameter `B`. The rules are a datatype of functions:

- `place(b, cell, side)` gives the new board, or None when the placement is illegal.
- `empties(b)` counts the empty cells, which every legal placement lowers.

The random engine becomes a shuffle oracle indexed by a draw counter. The iteration
order of `unordered_map` becomes an enumeration oracle. The floating-point exploration
term of the UCB score becomes a `bonus` oracle. The tree is an arena: a sequence of
nodes, where a node's child map holds indices and every child index is larger than its
parent's.

Two behaviours of the code to note:

- With zero legal placements the budget stays at the default of 3000 iterations
  (agent.h:142, 156-170).
- When the root has no children, the move returned is a placement on cell 0 for the
  player's side (agent.h:260, 275).

## Model

| member | source | states |
|---|---|---|
| Pieces.WhoChange | agent.h:291-298 | black and white are swapped, every other piece value is returned unchanged, and the result is a side exactly when the argument is |
| Pieces.WhoChangeInvolution | agent.h:291-298 | changing sides twice gives back the original piece |
| Pieces.Flip | agent.h:209-219 | the side to move after k successful placements, each followed by `who_change`, is a side exactly when the starting piece is |
| Pieces.FlipParity | agent.h:206-220 | the side to move after k successful placements depends only on the parity of k: the start side when k is even, the other side when odd |
| Pieces.FlipDiffers | agent.h:243-249 | from a side, the side to move after k placements differs from it exactly when k is odd, and is still a side |
| Pieces.FlipAfter | agent.h:206-215 | k placements after the other side of the depth-n mover moved is the mover after n + 1 + k placements (the playout starts one ply below the expanded node) |
| Game.StuckIffNoLegalCells | agent.h:147-154 | a side has no legal placement anywhere exactly when its set of legal cells is empty |
| Game.Cells | agent.h:133-136 | the initial move order lists 0 .. n-1 in increasing order |
| Game.OrderMembers | agent.h:187-188 | any permutation of the cells has n entries, each a cell, and contains every cell |
| Game.OrderDistinct | agent.h:187-188 | any permutation of the cells visits each cell at most once |
| Game.ReplaySnoc | agent.h:209-219 | a game replayed one placement further is the previous board with that placement made by the side whose turn it is |
| Game.ReplayEmpties | agent.h:209-220 | every placement of a replayed game fills a cell, so after k placements at least k fewer cells are empty and no playout outlasts the empty cells |
| IterationBudget.FirstAbove | agent.h:156-170 | reference reading of a threshold table: the value of the first row whose threshold the count strictly exceeds, the default when none does |
| IterationBudget.Budget | agent.h:142-170 | the budget is one of 3000, 50000, 70000, 90000, 100000, and it is the default 3000 exactly when there are no legal placements |
| IterationBudget.BudgetIsTable | agent.h:156-170 | for every count, the if / else-if chain equals the first-row-above reading of the table (60,70000), (30,100000), (20,90000), (10,70000), (0,50000) with default 3000 |
| IterationBudget.BudgetBoundaries | agent.h:156-170 | each threshold belongs to the lower bucket: 61 gives 70000 and 60 gives 100000, 31 and 30, 21 and 20, 11 and 10, 1 and 0 likewise |
| IterationBudget.BudgetNotMonotone | agent.h:156-170 | the budget both rises and falls as the count grows |
| Config.WordLength | agent.h:65 | the length of the leading run of non-space characters, which ends at a space or at the end |
| Config.Tokens | agent.h:64-65 | every token `ss >> pair` reads is a non-empty run of non-space characters |
| Config.TokensKeepText | agent.h:64-65 | the tokens put back together are exactly the non-space characters of the input, in order |
| Config.TokensOfWord | agent.h:64-65 | a word followed by a space or by the end is read as one token, followed by the tokens of the rest |
| Config.WordThenBlank | agent.h:64-65 | a word followed by a blank is the first token |
| Config.FindEq | agent.h:66-67 | the position of the first '=' of a token, None when there is none |
| Config.KeyOf | agent.h:66 | the key is a prefix of the token without '='; when the token has an '=' the key stops just before the first one, otherwise it is the whole token |
| Config.SplitRoundTrip | agent.h:66-67 | a token with '=' is its key, '=' and its value, and the key has no '='; a token without '=' is both its own key and its own value |
| Config.KeyValueOf | agent.h:66-67 | splitting `k=v` where k has no '=' gives back k and v |
| Config.MetaKeys | agent.h:65-68 | a key is in the settings map exactly when some token carries it |
| Config.MetaLastWins | agent.h:65-68 | a key's value comes from the last token that carries that key |
| Config.MetaAppend | agent.h:63-72 | the map of two runs of tokens is the first run's map overridden by the second's |
| Config.MetaSnoc | agent.h:68 | one more token sets its key to its value and keeps the rest of the map |
| Config.Property | agent.h:80 | the value of a present key; an absent key gives the MissingKey error |
| Config.Notify | agent.h:81 | the message's key, before its first '=', now maps to the text after it; every other entry is unchanged |
| Config.ParseMeta | agent.h:63-72 | the constructor loop builds the map of the tokens of the string, one token at a time |
| Config.SingleSetting | agent.h:63-72 | one `key=value` argument gives the one-entry map |
| Config.TwoSettings | agent.h:63-72 | two blank-separated `key=value` arguments give both entries, the second overriding the first |
| PlayerSettings.PlayerArgsTokens | agent.h:117 | the agent and player defaults are read as the four tokens name=unknown, role=unknown, name=random, role=unknown, ahead of the caller's tokens |
| PlayerSettings.MetaOfTwoPairsTwice | agent.h:64-68 | two keys each given twice take their second values |
| PlayerSettings.DefaultMeta | agent.h:117 | the defaults alone give name "random" and role "unknown" |
| PlayerSettings.PlayerMeta | agent.h:117 | the player's map is the defaults overridden by the caller's settings, and always has a name and a role |
| PlayerSettings.Validate | agent.h:119-124 | a player is accepted exactly when its name has none of `[]():;` and blank and its role is black or white, the side being the one the role names; the error is about the name when the name is bad, about the role when only the role is bad, each carrying the offending text |
| PlayerSettings.NoRoleRejected | agent.h:121-124 | with no arguments the player is refused with an invalid role "unknown" |
| PlayerSettings.BadRoleRejected | agent.h:121-124 | a single `role=r` argument where r is neither black nor white is refused with an invalid role r |
| PlayerSettings.BadNameRejected | agent.h:119-120 | a name with a forbidden character is refused with an invalid name, whatever the role |
| PlayerSettings.GoodSettingsAccepted | agent.h:119-124 | an acceptable name and a black or white role configure a player of that side |
| PlayerSettings.RoleSide | agent.h:121-123 | the side is black exactly for the role "black", white exactly for "white", and no side (empty) for every other role |
| SearchTree.Credited | agent.h:38-41 | `updateValue(v)` raises value by exactly v and nb by exactly 1, and keeps the board and the children |
| SearchTree.TruncDiv | agent.h:191 | C++ integer division: the quotient has the sign of the dividend and magnitude floor(abs(a) / b) |
| SearchTree.Exploit | agent.h:191 | the exploitation term `-value/nb` in int arithmetic: its sign is opposite to value's (0 allowed) and its magnitude is floor(abs(value) / nb) |
| SearchTree.ExploitCollapses | agent.h:191 | with abs(value) <= nb the integer exploitation term is -1, 0 or 1, and it is 0 unless every visit had the same non-zero outcome |
| SearchTree.ScoreOfUndecided | agent.h:191-195 | for two children that have neither always won nor always lost, the score comparison is exactly the comparison of their exploration terms |
| SearchTree.Average | agent.h:264 | the root's decision value is the exact quotient: it times nb is -value, and it lies in [-1, 1] when abs(value) <= nb |
| SearchTree.AverageOrder | agent.h:264-265 | child a's average is at least child b's exactly when -b.value * a.nb <= -a.value * b.nb, so the comparison is a cross-multiplication of the statistics |
| SearchTree.HandedIsCredit | agent.h:247-255 | after the odd-depth flip and the alternating walk, the node at depth t receives base at even t and -base at odd t, whatever the trajectory length |
| SearchTree.HandedSigns | agent.h:247-255 | the root always receives +base, and a parent and its child receive opposite values |
| SearchTree.Handed | agent.h:247-255 | every depth of the trajectory is handed either base or -base |
| SearchTree.StuckNoChildren | agent.h:197-202 | a node whose side to move has no legal placement has no children, since every child is a legal placement |
| SearchTree.ExtendsTransitive | agent.h:172-256 | keeping every old node's board and edges composes over successive iterations |
| SearchTree.AppendKeepsEdges | agent.h:49 | adding a fresh node without children keeps the tree well shaped and every edge legal |
| SearchTree.AddEdgeKeepsEdges | agent.h:34-36 | adding an edge that is a legal placement of the parent's side, to a later node one ply below, keeps the tree well shaped and every edge legal |
| SearchTree.Grown | agent.h:197-202 | an expansion appends a node for the new board with value 0 and nb 0, records it as the parent's child under the move, and leaves every other node alone |
| SearchTree.GrownKeeps | agent.h:197-202 | an expansion by a legal untried move keeps the tree well shaped, every edge legal and abs(value) <= nb, extends the old tree, and keeps every statistic |
| SearchTree.PathIncreasing | agent.h:240-242 | the node ids along a trajectory strictly increase, so no node appears twice |
| SearchTree.WithChild | agent.h:34-36 | `addNewChild(a, c)` makes child[a] = c, leaves every other key alone, and keeps the board and the statistics |
| SearchTree.FindChild | agent.h:43-50 | the lookup finds nothing exactly when no child has the board; otherwise it returns the first child in map order that has the board |
| SearchTree.Backpropagate | agent.h:247-255 | the trajectory node at depth k is credited Credit(k, base) with one more visit, and every other node is unchanged |
| SearchTree.CreditKeeps | agent.h:247-255 | the credit keeps the shape and edges, keeps abs(value) <= nb when abs(base) <= 1, and raises nb by one along the trajectory |
| Search.CountLegal | agent.h:147-154 | `empty_place` is the number of cells with a legal placement for the side |
| Search.FirstLegal | agent.h:277-288 | the first legal move of the order, or None exactly when no move of it is legal; over a permutation of all cells, None means the side is stuck |
| Search.OrderStuck | agent.h:277-288 | when no move of a permutation of all cells is legal, the side has no legal placement at all |
| Search.Playout | agent.h:205-220 | the playout is a legal game from the expanded board, sides alternating after each successful placement; it ends with `sim_who` being the side then to move, which has no legal placement; one shuffle is drawn per round |
| Search.ChooseStep | agent.h:188-231 | the loop over the shuffled moves returns what the reference pass `Decide` gives; `DecideRule` states what that is |
| Search.DecideFromRule | agent.h:188-231 | from any point of the pass that keeps the loop's facts (every earlier move is a child or illegal, the best so far has the highest score, the first of it), the rest of the pass satisfies the descent rule |
| Search.DecideRule | agent.h:188-231 | one pass is Terminal exactly when no move has a child or is legal; an Expand names the first move without a child that is legal, with its board; a Descend happens only when every move is a child or illegal, and goes to a child of the highest score, the first such in the order |
| Search.DescendNoUntried | agent.h:188-231 | over an order of all cells, going down means that every cell is either already a child or illegal: the pass expands before it descends |
| Search.StepAt | agent.h:185-231 | the order is reshuffled with the next draw and stays an order of all cells; the step goes down to the child `Decide` picks, with the other side to move, or names the untried legal move `Decide` expands, with its board, or finds the side stuck when `Decide` finds nothing |
| Search.Walk | agent.h:180-244 | the descent follows tree edges from the root with sides alternating; each step is the move `Decide` picks with the order drawn at that node, one reshuffle per node; it ends where `Decide` expands an untried legal move or at a stuck node |
| Search.BestChild | agent.h:258-269 | the move is a root child maximising -value / nb, the first such in map order; with no children it is 0 |
| Iteration.GrownPath | agent.h:197-202 | the expansion extends the trajectory by the new node, and the nodes off the extended path are untouched |
| Iteration.ExpandLeaf | agent.h:197-203 | the tree becomes exactly `Grown` at the last path node under the move, the path gains the new node and the moves gain the move; the tree invariant holds and the new node has value 0 and nb 0 |
| Iteration.Simulate | agent.h:204-220 | the playout from the new node starts with the side one ply below it and ends with the side to move stuck; it draws one shuffle per placement made plus one for the final round |
| Iteration.Grow | agent.h:197-239 | after the descent: an untried legal move is expanded into the added node and the game is played out from it; at a stuck node nothing is added and the game is over; the path is chosen by `Decide` and only the expanded parent gains a child |
| Iteration.Select | agent.h:180-244 | the path is chosen by `Decide` with successive reshuffles of the order; the tree is `nodes` grown by one node `Grown` describes, or unchanged when the path ends at a stuck node; every statistic stays; the game then ends with a stuck side; the root has a child unless its side is stuck; the order left is the last one drawn, and the draw counter grows by one per path node plus the playout's draws |
| Iteration.Reward | agent.h:247-255 | the backpropagation keeps the tree invariant, leaves every node visited, and credits the trajectory with alternating signs |
| Iteration.CreditReshapes | agent.h:247-255 | the credit changes no board and no child map, so the path choice and the reshaping of the tree carry over to the credited tree |
| Iteration.Iterate | agent.h:172-256 | one iteration: the path is chosen by `Decide` with successive reshuffles of the order, each an order of all cells; at most one node is added at its end and only its parent gains a child; the base is 1 exactly when the stuck side differs from `who`; each path node gains Credit(k, base) and one visit; every other node is unchanged; the tree invariant holds; the order left is the last one drawn and the draws are counted |
| Iteration.SelectThenReward | agent.h:172-256 | the descent and expansion followed by the credit make one iteration as `Iterated` describes it |
| Iteration.ShuffledOrders | agent.h:187 | successive reshuffles of an order of all cells are all orders of all cells |
| Iteration.IteratedRoot | agent.h:172-256 | over one iteration the root keeps its board and side to move and gains exactly one visit |
| Iteration.IteratedFollowsRule | agent.h:185-231 | every step of an iteration's path follows the descent rule for an order of all cells: on the way down it takes the child of highest score, the first such, and only when every cell is a child or illegal; the last step of a path that added a node expands the first untried legal move |
| Iteration.IteratedExpandsAtRoot | agent.h:188-203 | expansion before descent: when the root has an untried legal move, one iteration adds exactly one node, as a root child under an untried legal move |
| Iteration.TerminalAtRoot | agent.h:233-239 | an iteration whose path is the root alone found no child and no legal move at any cell of the root |
| Iteration.IterateAtRoot | agent.h:172-256 | the new tree is one iteration from the root applied to the old one, whose every step follows the descent rule for an order of all cells (`IteratedFollowsRule`); the tree invariant holds and the visiting order stays an order of all cells |
| Iteration.IterateRecorded | agent.h:172-256 | the history of trees is extended by the new tree, one iteration (descent rule included) after the previous one; the root keeps its board and side, gains one visit, and a child unless its side is stuck |
| Iteration.RunIterations | agent.h:172 | `count` iterations one after another: the history of count + 1 trees runs from the old tree to the new one, each one iteration after the one before, every step of which follows the descent rule; the root gains exactly `count` visits and a child unless count is 0 or its side is stuck |
| Iteration.VisitedAfterCredit | agent.h:247-255 | after the credit every node has been visited, including one the expansion added |
| Players.Player.constructor | agent.h:117-138 | both move orders are 0 .. cells-1; with a "search" setting, the tree is one root for the initial board with nb 1; the player invariant holds |
| Players.Player.Notify | agent.h:81 | the player's settings become `notify`'s update of the old settings |
| Players.StartTree | agent.h:43-49 | the tree a search starts from is the old tree when the root is an existing node, and otherwise the old tree followed by a fresh node for the board with value 0 and nb 1 |
| Players.Player.FindNode | agent.h:43-50 | the new root is the first root child, in map order, whose board is the position, and the tree is unchanged; when no child has that board it is a fresh node with value 0 and nb 1 and `who` to move, and no child had the board |
| Players.Player.SearchFromRoot | agent.h:147-256 | the trees the budget's iterations pass through run from the old tree to the new one, one iteration apart, each following the descent rule; the root gains exactly the budget for the number of legal placements in visits, and has children exactly when `who` has a legal placement |
| Players.Player.Search | agent.h:141-256 | the root moves to the node `findNode` gives for the position; from the tree that leaves, the budget's iterations run one after another, each following the descent rule; the root's nb becomes its old nb, or 1 when fresh, plus the budget; it has children exactly when `who` has a legal placement; the fallback's order is unchanged |
| Players.Player.AdvanceRoot | agent.h:258-275 | the move is a placement for `who`; when `who` is stuck it is cell 0 and the root stays; otherwise the move is legal and maximises -value / nb over the root's children, is the first maximum in map order, and that child becomes the root |
| Players.Player.RandomAction | agent.h:277-288 | the placements are reshuffled with the next draw; the move is a pass exactly when `who` is stuck, and otherwise the first legal placement of the new order |
| Players.Player.TakeAction | agent.h:140-289 | MCTS mode: the searched node is the one `findNode` gives, the iterations run one after another from the tree it leaves, each following the descent rule, and its nb grows by the budget; the fallback's order is unchanged; the move is a placement for `who`, cell 0 with the root kept when `who` is stuck, otherwise legal, maximising -value / nb over the searched node's children, the first maximum in map order, and that child becomes the root. Otherwise: the tree and the search order are unchanged, the placements are reshuffled, and the move is a pass exactly when `who` is stuck, else the first legal placement in the new order |
| Players.NewPlayer | agent.h:117-138 | a player is made exactly when the settings from the defaults and `args` validate, with that side, those settings and the given oracles; its mode is the "search" setting, with a one-node tree for the initial board with nb 1 when that is set and none otherwise; both orders are 0 .. cells-1 and no draw is made yet; otherwise the validation error |

## Left out

- The board and its rules (`board.h`, `action.h`) are not part of this model. The legality and application of a placement are a `place` oracle. Playout termination rests on an `empties` measure that every legal placement lowers.
- Randomness: `std::default_random_engine`, each `std::shuffle` and the `seed` setting are replaced by a shuffle oracle. The oracle is only required to permute, and is indexed by a draw counter that starts at 0. The seed's `std::stod` conversion is left out.
- Floating point: the UCB exploration term `sqrt(2 log nb) / nb` is a `bonus` oracle. Score and root averages are exact reals, so float rounding of near-ties is not captured. The integer exploitation term is modelled exactly.
- Integer width: `value`, `nb`, the budget and the loop counters are unbounded. 32-bit overflow is not modelled.
- The tree of `shared_ptr` nodes is an arena of node values. `updateValue` and `addNewChild` replace one element of the sequence instead of updating a shared object in place. Node lifetime, destructors and reclaiming orphaned subtrees are outside the model. Aliasing does not arise, since each node has one parent.
- `findNode`'s fresh node is appended to the arena as an unconnected node, as the source leaves it unattached.
- The descent loop stops where the expansion is made, rather than re-testing `nb != 0` on the new node. This is the same behaviour: every other node has nb >= 1 between iterations.
- `playOneSequence` is a comment in the source, not a function. It is the body of the iteration loop, modelled by `Iteration.Iterate` and `Iteration.IterateAtRoot`.
- Not modelled: the episode hooks `open_episode`, `close_episode`, `check_for_win` and the base `take_action` (agent.h:74-77), the commented-out output, and the numeric conversion of setting values (agent.h:90-91).
- `name()` and `role()` (agent.h:82-83) are modelled only as the `Property` lookups inside `Validate`.
- `PlayerSettings.NoRoleRejected`, `BadRoleRejected`, `BadNameRejected` and `GoodSettingsAccepted` each cover one argument shape. General arguments are covered by `Validate` with `PlayerMeta`.
- Players.NewPlayer: a `seed` setting that is not a number makes `random_agent`'s constructor throw from `std::stod` (agent.h:102-103), before the name and role checks. The model accepts such settings, since the numeric conversion is left out.
- `EnumerateOk` makes the iteration order of a child map a function of the map's contents. A real `unordered_map` can also order by insertion history and bucket count.
- Iteration.Iterated: each step's visiting orders are orders of all cells, so the descent rule holds at every step of a run. They are not tied to the draws of the shuffle oracle: `Iteration.Select` and `Iteration.Iterate` tie them with `Shuffled` and count the draws, but a run in `Iterations` does not say which reshuffle each iteration saw.
