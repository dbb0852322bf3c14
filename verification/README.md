# Monte Carlo tree search and its board games, in Dafny

This project models the `mcts` repository:

- a Rust Monte Carlo tree search engine (`src/mcts.rs`) with two games, tic-tac-toe (`src/ttt.rs`) and Connect Four (`src/connect4.rs`);
- a Python engine with its own tic-tac-toe `State` (`mcts.py`);
- a Python/JAX Connect Four environment (`connect4.py`).

Each part is stated as pure functions and small methods over immutable values, and its properties are proved.

Modules:

- `Wrappers`: `Option`, `Result` and the three fatal conditions of the engine's tree operations. These are expanding a terminal node, expanding a node twice, and asking for the best child of a node without children. The rollout can also abort in the source; see "## Left out".
- `GameState`: the `GameState` trait as a record of total functions. It also holds the sign rule of a rollout's value and the alternation `r * (-1)^k` of backpropagation.
- `Argmax`: the two tie-breaking rules. Rust's `max_by`/`max_by_key` keep the last maximal element. Python's `max` keeps the first.
- `Boards`: what the board games share. This covers cell counts, which give the measure (empty cells) that makes rollouts end, and the X/O turn rules.
- `Arena`: the search tree as a sequence of node records whose parent and children fields are indices. The root is at 0, and a parent always comes before its child. This replaces `Rc`/`Weak`/`RefCell` in Rust and object references in Python. `Linked` is the tree shape. `Counted` is the invariant that a node's visit count equals the number of results it has recorded. `Backpropagated` says what one backpropagation does.
- `Mcts`: the Rust engine. It covers node construction with priors, `q`, `best_child`, `expand` with its guards and its prior filter, `select_node`, `backpropagate` as a loop, and `best_action`.
- `PyMcts`: the Python engine. It covers one-child-at-a-time expansion from the untried actions, `select_node`, recursive `backpropagate` and `best_action`. Its invariant is that a node's children plus its untried actions are its legal actions.
- `TicTacToe` and `ConnectFour`: the Rust games.
- `PyTicTacToe`: the Python tic-tac-toe. It is proved to agree with the Rust one on legal actions, results, terminality and successors.
- `Connect4Env`: the JAX environment over `int8` boards. It covers the four window families, `get_winner`, `env_reset`, `env_step`, the two action masks and the integer policy scores.

Floating-point selection scores and the prior filter are left abstract: the engines take them as function parameters. Randomness is a parameter too: the terminal state of the k-th rollout is `playout(k, leaf state)`. The Rust tic-tac-toe and Connect Four games also have a `Playout` function that takes an arbitrary choice of legal move and is proved to end in a terminal state.

## Model

| member | source | states |
|---|---|---|
| GameState.RolloutValue | src/mcts.rs:124-125 | the rollout value is the terminal result or its negation; for a decisive result it keeps the sign exactly when the player to move at the leaf is the player to move at the end; with turns ±1, value·turn(leaf) = result·turn(end) |
| GameState.AlternateNegate | src/mcts.rs:139 | flipping the result before passing it up is the same as counting one more level: result·(-1)^k seen from the parent |
| Argmax.LastMax | src/mcts.rs:157 | `max_by_key`: the chosen index holds a maximal value and every later element is strictly smaller, so ties go to the last maximum |
| Argmax.FirstMax | mcts.py:75 | Python `max`: the chosen index holds a maximal value and every earlier element is strictly smaller, so ties go to the first maximum |
| Argmax.FirstLastAgree | src/mcts.rs:73-77 | the Rust and Python choices coincide exactly when the maximum is attained once |
| Boards.GridCountZero | src/ttt.rs:31 | the empty-cell count is zero exactly when every cell is marked, which is the full-board half of `is_terminal` |
| Boards.GridCountMark | src/ttt.rs:61-62 | writing a mark over one empty cell of a cloned board leaves exactly one empty cell fewer |
| Boards.PlayerTurn | src/ttt.rs:34-40 | `get_player_turn`, written the same way in both Rust games: X plays +1 and O plays -1 |
| Boards.Toggle | src/ttt.rs:63 | the next player is X or O, and it is O exactly when the mover was X |
| Arena.Path | src/mcts.rs:140-143 | following parent links from a node reaches the root in finitely many steps, each to a smaller index, ending at the node with no parent |
| Arena.SameShapeLinked | src/mcts.rs:136-137 | changing only visit and result counts keeps the tree shape |
| Arena.SameShapePath | src/mcts.rs:140-143 | changing only counts leaves every path to the root as it was |
| Arena.BackpropagateStep | src/mcts.rs:135-139 | one loop iteration gives the k-th node of the path one visit and outcome result·(-1)^k and extends the walk invariant by one node |
| Arena.BackpropagatedKeeps | src/mcts.rs:134-144 | a backpropagation keeps the shape of the tree and keeps visit count = number of results at every node; the root gains exactly one visit and one result |
| Arena.WinsLossesBound | src/mcts.rs:47 | wins plus losses never exceed the number of recorded results, which bounds `q` |
| Arena.ChildrenAppendedLinked | src/mcts.rs:103-104 | appending fresh childless nodes as the last children of one node keeps parents before children, every child listed once by its parent, and every listed child pointing back |
| Mcts.ZipMapSpec | src/mcts.rs:34 | `zip(..).collect()` maps exactly the actions that have a weight, each to the weight of its last occurrence |
| Mcts.NewNode | src/mcts.rs:31-44 | a new node has the given state, parent and action, no children, no results, visit count 0, and the priors its own state yields |
| Mcts.ProbsKeys | src/mcts.rs:32-34 | when the policy gives one weight per legal action, the prior map's keys are exactly the legal actions |
| Mcts.Q | src/mcts.rs:46-48 | `q` is -1 for an unvisited node; otherwise q·visits = wins - losses, and q lies in [-1, 1] whenever visits equal the result count |
| Mcts.Prior | src/mcts.rs:81-83 | the prior the parent recorded for the node's action, absent when there is no parent or no recorded weight (the source's `unwrap_or(0.0)`); its meaning is stated by Mcts.PriorOfChild |
| Mcts.PriorOfChild | src/mcts.rs:81-83 | in a consistent tree whose policy gives one weight per legal action, every non-root node finds its prior, equal to the weight its parent's state gives to its action |
| Mcts.BestChild | src/mcts.rs:72-78 | fails exactly on a node without children; otherwise returns a child of the node at a position of maximal score with every later score strictly smaller |
| Mcts.KeptIff | src/mcts.rs:99-101 | an action survives the expansion filter exactly when it is legal, has a recorded prior, and the prior passes the filter |
| Mcts.AppendKept | src/mcts.rs:98-107 | the loop appends, in legal-action order, one fresh child of the node for each kept action, at the next free indices, and returns those indices |
| Mcts.Expand | src/mcts.rs:93-108 | a terminal node is refused, a node with children is refused, and otherwise the node's children become exactly the kept actions' new nodes in legal order, each with parent = the node, its action, and state = the successor; nothing else changes |
| Mcts.ExpandedLinked | src/mcts.rs:102-104 | an expansion keeps the tree linked |
| Mcts.ExpandedConsistent | src/mcts.rs:98-107 | after an expansion every child still comes from a legal action of its parent's state, with the successor state, and every node's priors are those of its own state |
| Mcts.ExpandedCounted | src/mcts.rs:39-41 | an expansion keeps visit count = number of results, since new nodes have neither |
| Mcts.ExpandedKeeps | src/mcts.rs:93-108 | an expansion keeps all three tree invariants and the root, and leaves every existing non-empty children list unchanged, so no node is expanded twice |
| Mcts.Walk | src/mcts.rs:134-144 | the backpropagation loop, along a chain of parent links ending at the root, gives the k-th node one visit and outcome result·(-1)^k and changes no other node |
| Mcts.Backpropagate | src/mcts.rs:130-145 | every ancestor at distance k of the leaf, the root included, receives one visit and outcome result·(-1)^k, and no node off that path changes |
| Mcts.DescentStep | src/mcts.rs:63-66 | from a non-terminal node reached by the descent, moving to its best child continues the descent: every node above is non-terminal and has the next node of the path as its best child |
| Mcts.SelectNode | src/mcts.rs:56-70 | the descent from the root follows `best_child` through non-terminal nodes with children; it returns either the unchanged tree and the terminal node where that descent stops, or the tree after expanding the childless non-terminal node where it stops together with the best child of that node in the expanded tree; the invariants hold and existing children lists are unchanged; a non-terminal root ends up with children; it fails only with the no-children error of `best_child`, only when the tree holds a non-terminal childless node none of whose legal actions passes the prior filter, and never when every non-terminal state keeps some action |
| Mcts.NewTree | src/mcts.rs:35-43 | a one-node tree with the given state is linked, consistent and counted, with no visits |
| Mcts.SameShapeConsistent | src/mcts.rs:130-145 | backpropagation changes only counts, so consistency with the game survives it |
| Mcts.Simulate | src/mcts.rs:150-154 | one select, rollout and backpropagate pass: the tree and leaf selected as above receive, from that leaf up to the root, the rollout value of the leaf's state negated at every level (result·(-1)^k at distance k); the pass keeps the invariants and the root state, adds exactly one visit to the root and leaves a non-terminal root with children; it fails only as selection does, and never when every non-terminal state keeps some action |
| Mcts.BestAction | src/mcts.rs:149-159 | after n passes the root has n more visits; the action returned is the action of a root child of maximal visit count with every later child strictly less visited, and it is legal at the root; it fails only when the root has no children or a simulation met a node whose expansion keeps no action, and it succeeds whenever n ≥ 1, the root is not terminal and every non-terminal state keeps some action |
| PyMcts.NewNode | mcts.py:7-14 | a new node has the given state, parent and action, no children, visit count 0, no results, and all the state's legal actions untried |
| PyMcts.Q | mcts.py:16-17 | wins minus losses is 0 with no results and lies within ±visits when visits equal the result count |
| PyMcts.IsFullyExpanded | mcts.py:22-23 | no untried action is left; PyMcts.FullyExpandedChildren shows this means a child for every legal action |
| PyMcts.FullyExpandedChildren | mcts.py:22-23 | children plus untried actions number the legal actions, so a node is fully expanded exactly when it has a child for every legal action |
| PyMcts.NewTree | mcts.py:149 | a one-node tree is linked, consistent, counted and has no unvisited non-root node |
| PyMcts.Expand | mcts.py:40-45 | pops the last untried action, appends one new child for it at the end of the arena and of the children, returns that child, and keeps children + untried constant |
| PyMcts.ExpandPartitioned | mcts.py:41-44 | after an expansion every node's untried actions are still a prefix of its legal actions and its children's actions are the rest, last one first |
| PyMcts.ExpandSuccessors | mcts.py:42-43 | after an expansion every child is still its parent's successor under its action |
| PyMcts.ExpandKeeps | mcts.py:40-45 | an expansion keeps the tree linked, consistent and counted; the only unvisited non-root node it adds is the new child |
| PyMcts.BestChild | mcts.py:36-38 | fails exactly on a node without children (`max` of an empty list); otherwise returns a child at a position of maximal score with every earlier score strictly smaller |
| PyMcts.AncestorsStep | mcts.py:29-33 | descending from a non-terminal, fully expanded node to one of its children keeps every ancestor non-terminal and fully expanded |
| PyMcts.DescentStep | mcts.py:32-33 | moving from a node reached by the descent to its best child continues the descent: every node above has the next node of the path as its best child |
| PyMcts.SelectNode | mcts.py:27-38 | the descent from the root follows `best_child` through non-terminal, fully expanded nodes; it returns the unchanged tree and the terminal node where that descent stops, or the tree after one expansion of the node with untried actions where it stops, together with the new child; a non-terminal root ends up with children; it fails only when `max` meets a non-terminal, fully expanded node without children, whose state has no legal action, so never when every non-terminal state has a legal action |
| PyMcts.Backpropagate | mcts.py:62-66 | the recursion gives every ancestor at distance k of the node, up to the root, one visit and outcome result·(-1)^k, and changes nothing else |
| PyMcts.BackpropagateCons | mcts.py:65-66 | recording at a node and then recursing on its parent with the negated result is one backpropagation from the node |
| PyMcts.BackpropagatedVisited | mcts.py:38 | after a simulation every non-root node has been visited, so the UCT score's divisions by a child's visit count are defined |
| PyMcts.SameShapeConsistent | mcts.py:62-66 | backpropagation changes only counts, so the partition and successor invariants survive it |
| PyMcts.Simulate | mcts.py:71-74 | one select, rollout and backpropagate pass: the tree and leaf selected as above receive, from that leaf up to the root, the rollout value of the leaf's state negated at every level; the pass keeps the invariants, keeps every non-root node visited, adds one visit to the root and leaves a non-terminal root with children; it fails only as selection does, and never when every non-terminal state has a legal action |
| PyMcts.ChildLegal | mcts.py:41-43 | every child was produced by a legal action of its parent's state |
| PyMcts.BestAction | mcts.py:70-75 | after n passes the root has n more visits; the action returned is the action of a root child of maximal visit count with every earlier child strictly less visited, and it is legal at the root; it fails only when the root has no children or a simulation met a non-terminal state without legal actions, and it succeeds whenever n ≥ 1, the root is not terminal and every non-terminal state has a legal action |
| TicTacToe.New | src/ttt.rs:19-24 | the initial board is empty and X moves first |
| TicTacToe.LegalRow | src/ttt.rs:46-50 | the inner loop yields the empty cells of one row from a column on, in column order |
| TicTacToe.LegalRows | src/ttt.rs:45-51 | the outer loop yields the empty cells of the remaining rows, in row-major order |
| TicTacToe.LegalActions | src/ttt.rs:42-54 | the legal actions are exactly the empty cells, in row-major order |
| TicTacToe.LegalActionsCount | src/ttt.rs:42-54 | there are as many legal actions as empty cells |
| TicTacToe.NewLegalActions | src/ttt.rs:19-24 | the initial board offers all nine cells |
| TicTacToe.GetResult | src/ttt.rs:71-86 | the result is -1 or 0 |
| TicTacToe.ResultIffWon | src/ttt.rs:71-86 | the result is -1 exactly when one of the three rows, three columns or two diagonals holds three equal non-blank marks |
| TicTacToe.IsTerminal | src/ttt.rs:30-32 | a state is terminal exactly when a line is complete or no cell is empty |
| TicTacToe.LiveHasMove | src/ttt.rs:30-32 | a state that is not terminal has a legal action |
| TicTacToe.NextState | src/ttt.rs:60-69 | the mover's mark is written at the action cell, every other cell is kept, and the turn passes to the other player |
| TicTacToe.LegalMoveShrinks | src/ttt.rs:60-62 | a move into an empty cell, which every legal action is, leaves exactly one empty cell fewer |
| TicTacToe.Policy | src/ttt.rs:56-58 | one weight per action, each equal to 1/(number of actions) |
| TicTacToe.PolicySums | src/mcts.rs:117-118 | the uniform weights of a non-empty action list sum to one, as the rollout asserts |
| TicTacToe.RulesLive | src/ttt.rs:30-54 | under the tic-tac-toe rules every state that is not terminal has a legal action, which is what the engines need to succeed |
| TicTacToe.RulesKeep | src/mcts.rs:99-101 | with a prior filter that keeps every prior above 1e-6, every non-terminal tic-tac-toe state keeps some action, since the uniform prior of at most nine moves is at least 1/9 |
| TicTacToe.Playout | src/mcts.rs:113-123 | a rollout that plays any legal move at each step ends in a terminal state after finitely many moves |
| PyTicTacToe.Init | mcts.py:79-81 | a missing board becomes an empty 3x3 board; a given board and the given player are kept |
| PyTicTacToe.KeepBlank | mcts.py:87 | the comprehension's filter keeps exactly the listed cells that are empty |
| PyTicTacToe.LegalActions | mcts.py:86-87 | every legal action is an empty cell of the board |
| PyTicTacToe.LegalActionsAgree | mcts.py:86-87 | the comprehension yields the same list as the Rust loops: the empty cells in row-major order |
| PyTicTacToe.GetResult | mcts.py:93-105 | the result is -1 or 0, and -1 exactly when some row, column or diagonal holds three equal non-blank marks |
| PyTicTacToe.ResultAgree | mcts.py:96-103 | the chained comparison `a == b == c != ' '` finds the same lines as the Rust checks, so both results agree on every board |
| PyTicTacToe.IsTerminal | mcts.py:89-91 | terminal exactly when a line is complete or no cell is empty, the same as the Rust rule |
| PyTicTacToe.RulesLive | mcts.py:86-91 | under the Python tic-tac-toe rules every state that is not terminal has a legal action |
| PyTicTacToe.NextState | mcts.py:107-111 | one cell gets the mover's mark, the others are kept, the mover toggles, and the state equals the Rust successor |
| ConnectFour.New | src/connect4.rs:19-24 | the initial 6x7 board is empty and X moves first |
| ConnectFour.TopRow | src/connect4.rs:26-28 | the lowest row whose cell in the column is empty, or none when the column is full |
| ConnectFour.LegalActions | src/connect4.rs:46-50 | the legal actions are exactly the columns whose top cell is empty, in ascending order |
| ConnectFour.LegalHasTop | src/connect4.rs:74 | a legal column always has a row to drop into |
| ConnectFour.NextState | src/connect4.rs:72-82 | the mover's piece lands on the lowest empty cell of the column and nothing else changes; a full column leaves the board as it was; in both cases the turn passes |
| ConnectFour.Scan | src/connect4.rs:86-92 | the nested loop with an early return succeeds exactly when some position from the start on satisfies the test |
| ConnectFour.GetResult | src/connect4.rs:84-116 | the result is -1 or 0, and -1 exactly when some horizontal, vertical or diagonal window of four holds equal non-blank marks |
| ConnectFour.ResultIffWon | src/connect4.rs:84-116 | the horizontal, vertical and two-diagonal scans together find exactly the complete windows of four |
| ConnectFour.IsTerminal | src/connect4.rs:34-36 | terminal exactly when someone has four in a row or every cell is filled |
| ConnectFour.LegalIffTop | src/connect4.rs:46-50 | on a board obeying gravity a column is legal exactly when it has an empty cell |
| ConnectFour.NextStateGravity | src/connect4.rs:72-76 | dropping a piece keeps gravity: no empty cell lies below a filled one |
| ConnectFour.LegalMoveShrinks | src/connect4.rs:72-76 | a legal move fills exactly one empty cell |
| ConnectFour.LiveHasMove | src/connect4.rs:34-36 | a non-terminal game obeying gravity has a legal column |
| ConnectFour.RulesLive | src/connect4.rs:34-50 | under the Connect Four rules a state obeying gravity that is not terminal has a legal column |
| ConnectFour.NewLegalActions | src/connect4.rs:19-24 | the empty board obeys gravity and offers all seven columns |
| ConnectFour.Playout | src/mcts.rs:113-123 | a rollout that drops into any legal column at each step ends in a terminal state that still obeys gravity |
| ConnectFour.Scores | src/connect4.rs:53-63 | one score per action, in action order, each the move score of that action; what a score means is stated by ConnectFour.MoveScore |
| ConnectFour.MoveScore | src/connect4.rs:54-62 | a move scores 100, 300, 400 or 600; it has 300 added exactly when the board after the mover's piece drops holds a complete line of four (of either mark, as `get_result() != 0` checks, so also on a board already won), and 200 exactly when the board after the opponent's piece drops there does |
| Connect4Env.Wrap8 | connect4.py:103 | an `int8` conversion lands in [-128, 128) and leaves values already in range unchanged |
| Connect4Env.Flatten | connect4.py:52-56 | the nested comprehension contains every window of every row of the table and nothing else |
| Connect4Env.WindowCounts | connect4.py:51-77 | the four families hold 24, 21, 12 and 12 windows |
| Connect4Env.HWindowLine | connect4.py:53 | a horizontal window is all one player exactly when that player has four in a row going right from its start |
| Connect4Env.VWindowLine | connect4.py:60 | a vertical window is all one player exactly when that player has four in a row going up from its start |
| Connect4Env.DWindowLine | connect4.py:67 | the diagonal of a 4x4 block is all one player exactly when that player has four in a row going up-right |
| Connect4Env.AWindowLine | connect4.py:74 | the diagonal of a row-reversed 4x4 block is all one player exactly when that player has four in a row going up-left from its top-right corner |
| Connect4Env.LinesIff | connect4.py:80-87 | some window of the four families is all `p` exactly when `p` holds four in a row somewhere on the board |
| Connect4Env.GetWinner | connect4.py:79-88 | 1 exactly when only X holds four in a row, -1 exactly when only O does, and always in [-1, 1] |
| Connect4Env.EnvReset | connect4.py:90-95 | the reset environment is in range, not done, has X to move and reward 0, all 42 cells empty, and obeys gravity |
| Connect4Env.FirstZeroRow | connect4.py:99 | `argmax` of the empty flags is the lowest empty row of the column, or row 0 when the column is full |
| Connect4Env.EnvStep | connect4.py:97-111 | a finished game is unchanged with reward 0; a full column keeps the board and player, with reward -1 and done; otherwise the mover's piece drops to the lowest empty cell; done becomes true exactly when it was already true, the reward is non-zero, the column was full or the top row is full; the player flips exactly when the game goes on |
| Connect4Env.StepGravity | connect4.py:99-102 | a step keeps gravity: the piece goes to the lowest empty cell of its column |
| Connect4Env.RunGravity | connect4.py:97-111 | any sequence of steps from a board obeying gravity, such as a reset board, keeps gravity |
| Connect4Env.StepValid | connect4.py:102-109 | a step keeps cells in {-1, 0, 1}, the player ±1 and the reward in [-1, 1] |
| Connect4Env.StepReward | connect4.py:103 | after a valid drop the reward is 1 exactly when the mover alone holds four in a row and -1 exactly when the opponent alone does |
| Connect4Env.StepProgress | connect4.py:102-104 | a step of a live game either ends it or fills exactly one more cell |
| Connect4Env.ValidActionMask | connect4.py:116-117 | seven flags; a column is marked exactly when the game is live and its top cell is empty; Connect4Env.ValidMaskSound relates this to the columns that accept a piece |
| Connect4Env.ValidMaskSound | connect4.py:116-117 | a column marked valid accepts a piece in a live game, and on a board obeying gravity every column that accepts a piece in a live game is marked |
| Connect4Env.WinningActionMask | connect4.py:119-122 | seven flags; a column is marked exactly when a step by the given player into it earns reward 1; Connect4Env.WinningMaskMeans states what that reward means |
| Connect4Env.WinningMaskMeans | connect4.py:119-122 | for a real player a column is marked winning exactly when the game is live, the column accepts the piece, and the drop leaves that player alone with four in a row |
| Connect4Env.PolicyFunction | connect4.py:124-129 | seven scores, all 0 once the game is over |
| Connect4Env.PolicyScores | connect4.py:124-129 | on a board obeying gravity each score is 0, 100, 300, 400 or 600; it is 0 exactly for an invalid column, has 300 added exactly when the mover wins there and 200 exactly when the opponent would |

## Left out

- Floating-point scoring is not modelled. The PUCT score with `ln` and `sqrt` (src/mcts.rs:80-91) and the UCT score of the Python `best_child` (mcts.py:36-38) become an abstract score function. The `prob > 1e-6` filter (src/mcts.rs:101) becomes an abstract predicate. The Connect Four softmax (src/connect4.rs:65-69) is left out, and its engine prior is the pre-softmax integer score. Because the softmax has no temperature and the scores differ by at least 100, every move below the best score gets a probability under e^-100, so the real Connect Four expansion keeps only the best-scoring moves; `ConnectFour.Rules()` with a filter on a single score does not reproduce that pruning. The engines' contracts hold for every choice of these.
- Randomness is a parameter. `WeightedIndex` sampling (src/mcts.rs:120-121), `random.choice` (mcts.py:57-58) are replaced by the rollout's terminal state, supplied per simulation, or by an arbitrary `pick` function in the `Playout` of the Rust games. The floating-point sum-to-one assertion of the rollout (src/mcts.rs:117-118) is only proved for the uniform tic-tac-toe policy, over the reals.
- Rollout failures are not modelled. The Rust rollout panics when the policy weights of a visited state do not sum to 1 (the assert at src/mcts.rs:117-118), which includes a non-terminal state without legal actions (an empty sum), and `WeightedIndex::new(..).unwrap()` (src/mcts.rs:120) fails on an empty weight list. The Python rollout's `random.choice` (mcts.py:57-58) raises on an empty list. The engines take the rollout's terminal state as the `playout` parameter, so where the source aborts inside a rollout the model's simulation returns `Ok`. Under the liveness hypotheses of the engines (every non-terminal state has a legal action) and a policy that sums to 1, as `TicTacToe.PolicySums` shows for tic-tac-toe, these failures cannot happen.
- `Rc`/`Weak`/`RefCell` ownership and borrowing are replaced by the index arena. A failed `Weak::upgrade` cannot happen there.
- The terminal and curses user interfaces, the input loops and `src/main.rs` are I/O and are left out. So are `print_board`, the mctx/JAX search wrappers (`value_function`, `root_fn`, `recurrent_fn`, `run_mcts`, connect4.py:131-179) with their `jax.random` rollouts, and the jit/vmap machinery of `connect4.py`. `winning_action_mask` is modelled as one step per column instead of a vectorised map.
- Integer widths: Rust's `i32` visit counts and result counts are unbounded here, and `best_action` takes a non-negative simulation count, where a negative `i32` would run no simulation. The JAX `int8` wrap-around is written out with `Wrap8` where `env_step` and `policy_function` convert.
- Actions outside the board are excluded by the types: a tic-tac-toe `Cell`, a Connect Four `Col` below 7. Out-of-range indexing would panic in Rust and be clamped by JAX.
- The Rust games only ever hold X or O as the mover, so `Boards.PlayerTurn` requires X or O in place of the `unreachable!()` arm of `get_player_turn`. The states of both games keep that requirement through the `Play` subtype. The Python tic-tac-toe turn marker is compared for equality only, and the model passes it to the engine as its character code.
- `get_policy` of `src/ttt.rs` is modelled over the reals, including its division by the number of actions. No floating-point rounding is modelled.
- Mcts.BestAction, PyMcts.BestAction: the root's visit count is stated only for the successful outcome. A failure stands for the panic of Rust or the exception of Python, which ends the search, so the model returns the tree as it stood at that point.
- ConnectFour.RulesLive: it needs gravity, because a board whose top row is full above an empty cell offers no move and need not be terminal. States reached from `new` by `get_next_state` obey gravity (ConnectFour.NextStateGravity), but the engines' success hypothesis ranges over all states.
- Connect4Env.PolicyFunction: the `float32` sums are integers here. That is exact for these values.
