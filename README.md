# NFA simulator, determiniser and minimiser in Dafny

A model of the `NFA` class of the `nfa_simulator` repository (`nfa.py`): a
finite automaton over integer states and the integer symbols
`0..alphabet_size-1`, with

- the constructor and its size check;
- the transition index (`add_transition`, `_move`);
- the simulator `accepts`: a live-set loop that may stop early with `False`;
- the depth-first search `_get_reachable_states`;
- the subset construction `to_DFA`, which drops dead composites and keeps the
  processed composites in a list;
- the renumbering `normalize`, guarded by the `__normalized` flag;
- the table-filling minimisation `minimize`: it prunes to the reachable
  states, runs the distinguishability-matrix fixpoint and builds the classes.

The class is `Nfa.NFA`. Its methods change its fields in place, as the
source's methods do.

Pure ghost functions give the contracts their meaning:

- `Transitions.Move` is the image of a state set;
- `Transitions.Run` folds `Move` over a word;
- `Transitions.Reach` is the least closed superset of the start set;
- `Simulation.AcceptsSpec` is what `accepts` answers;
- `SubsetConstruction.IsSubsetConstruction` and `SubsetConstruction.Renumber`
  describe the composite automaton and its renumbering;
- `Minimization.Consistent` gives the relations that no word separates.

The main results are these:

- `accepts` computes `AcceptsSpec`. The early `False` does not change the
  answer.
- The search returns exactly `Reach`.
- `to_DFA` builds the unique subset construction, whatever order the
  worklist takes.
- `to_DFA` followed by `normalize` gives the same answer as the original
  automaton on every string, including where the answer is an error,
  provided every recorded symbol lies in `0..alphabet_size-1`. Without that
  condition the result can differ (see "Left out").
- The unmarked pairs the minimisation leaves form the greatest consistent
  relation, and that relation is an equivalence.
- The class ids partition the states of the classes that have at least two
  members, and the classes are numbered in the order of their least members.
- `scenarios.dfy` proves the answers and tables that `test_nfa.py` checks.

Integers are unbounded in Python and in the model. The only conversion
modelled is `int(c)` of a single character.

The phases live in separate fields:

- **Integer phase:** `start`, `accept` and `trans`.
- **Composite phase** (the result of `to_DFA`): `dStart`, `dAccept`,
  `dTrans` and `processedList`.
- **Minimized phase:** `minStart`, `accept` and `minTrans`, plus ghost class
  data.

The source instead retypes the same three attributes in each phase.

## Model

| member | source | states |
|---|---|---|
| Nfa.NFA.constructor | nfa.py:5-16 | the new automaton holds the given sizes, start set, accept set and table; it is in the integer phase with an empty processed list |
| Nfa.NFA.Create | nfa.py:5-16 | the result is the size error exactly when the number of states or of symbols is negative; otherwise it is a fresh integer-phase automaton holding the given parts, with an empty processed list |
| Nfa.NFA.AddTransition | nfa.py:31-38 | the table becomes the old table with b added to the destinations of (a, s); start, accept, phase and processed list are unchanged |
| Transitions.WithEdge | nfa.py:31-38 | the edge's row and entry are created when missing; the (a, s) entry gains b; every other entry and every other row's symbols stay the same |
| Transitions.MoveWithEdge | nfa.py:31-38 | after the new edge, the s-image of S grows by b exactly when S holds a and the symbol is s |
| Transitions.WithEdgeIdempotent | nfa.py:31-38 | recording an edge that is already there leaves the table unchanged, so repeating `add_transition` changes nothing |
| Nfa.NFA.MoveStates | nfa.py:40-47 | the result is the image of S under the s-edges (the union of the recorded destinations) |
| Transitions.MoveSingleton | nfa.py:40-47 | the image of {q} is q's recorded destinations on the symbol, and empty when there is no entry |
| Transitions.MovePair | nfa.py:40-47 | the image of {p, q} is the union of the two rows' destinations |
| Transitions.MoveUnion | nfa.py:40-47 | the image of a union is the union of the images |
| Transitions.MoveOfEmpty | nfa.py:40-47 | the image of the empty set is empty |
| Transitions.MoveUnknownSymbol | nfa.py:44-46 | a symbol no row mentions moves every set to the empty set |
| Nfa.NFA.Accepts | nfa.py:49-58 | the answer is AcceptsSpec of the table, start and accept sets; on a string of digits it is whether the run of its symbols meets the accept set |
| Simulation.DigitValue | nfa.py:53 | `int(c)` of a decimal digit is a value in 0..9 |
| Simulation.SymbolsOf | nfa.py:52-53 | a string of digits has one symbol per character, each the value of that digit |
| Simulation.FirstNonDigit | nfa.py:52-53 | the prefix before the result is all digits, and the character at the result, if any, is not a digit |
| Simulation.AcceptsEmpty | nfa.py:49-58 | the empty string is accepted exactly when a start state is an accept state |
| Simulation.AcceptsDigits | nfa.py:52-58 | a string of digits is never an error, and the early exit does not change its answer |
| Simulation.AcceptsAfterEmpty | nfa.py:54-56 | once the live set is empty after a non-empty digit prefix, the answer is false whatever follows |
| Simulation.AcceptsAtBadChar | nfa.py:52-53 | a non-digit reached while the live set is non-empty (or at once) gives the conversion error on that character |
| Simulation.AcceptsSpecCongruent | nfa.py:49-58 | two automata whose runs are empty together and accept together give the same answer on every string |
| Transitions.RunOfEmpty | nfa.py:54-56 | an empty live set stays empty on every word |
| Transitions.RunSnoc | nfa.py:52-54 | reading one more symbol is one more move |
| Transitions.RunAppend | nfa.py:52-54 | reading u then v is reading u + v |
| Transitions.RunEmptyPrefix | nfa.py:54-56 | an empty live set after a prefix gives an empty live set at the end |
| Nfa.NFA.GetReachableStates | nfa.py:60-72 | the result is Reach of the start set: it holds the start states, is closed under every edge, and is the least such set |
| Nfa.NFA.PushSuccessors | nfa.py:67-71 | the stack gains exactly the successors of q that are not yet visited |
| Nfa.NFA.PushTargets | nfa.py:69-71 | the stack gains exactly the given destinations that are not yet visited |
| Nfa.SearchDone | nfa.py:64-72 | when the stack is empty, the visited states hold the start states, are closed under every edge and are reachable |
| Transitions.ReachContains | nfa.py:60-72 | Reach holds the start set |
| Transitions.ReachClosed | nfa.py:60-72 | Reach is closed under every edge on every symbol |
| Transitions.ReachLeast | nfa.py:60-72 | Reach lies inside every closed superset of the start set |
| Transitions.ReachIsLeastClosed | nfa.py:60-72 | Reach is the least closed superset of the start set |
| Transitions.MoveWithinClosed | nfa.py:89-91 | a move made from inside a closed set stays inside it, so every composite stays within the reachable states |
| Lists.ListOf | nfa.py:124 | `list(s)` lists every element of s exactly once, in an order left open |
| Lists.IndexOf | nfa.py:141 | `index` returns a position that holds x, with no earlier occurrence of x |
| Lists.IndexOfAt | nfa.py:141-153 | in a duplicate-free list, `index` inverts subscripting, so renumbering is injective |
| Nfa.NFA.ExpandRow | nfa.py:107-116 | the row of composite C holds one entry per symbol in [0, alphabet_size) whose move is non-empty, and every such destination is enqueued |
| Nfa.NFA.Explore | nfa.py:94-116 | the processed composites are the least set holding the start composite and closed under non-empty moves; the accept composites are the processed ones meeting the accept set; every processed composite gets its row |
| Nfa.ExploreDone | nfa.py:96-116 | when the queue is empty, the processed composites hold the start composite, lie within the reachable states, are closed under non-empty moves and lie inside every such closed family; the accept composites are the processed ones meeting the accept set |
| Nfa.NFA.ToDFA | nfa.py:74-128 | the composite phase holds the subset construction over the processed list; the start composite is the start set; the integer-phase fields are unchanged |
| Nfa.NFA.Determinize | nfa.py:85-124 | the accept composites, the table of non-dead rows and the processed list form the subset construction over the listed composites; the list is duplicate-free and names the start composite, every accept composite and every row key and destination |
| SubsetConstruction.DeadRowHasNoLiveEntry | nfa.py:118-119 | a row is dead exactly when every destination set it records is empty, and an empty row is dead |
| Nfa.RowOf | nfa.py:118-122 | reading a composite's row from the `defaultdict` gives its recorded row, or an empty row, which is dead, when nothing was recorded |
| SubsetConstruction.DeadRowIsEmpty | nfa.py:118-122 | `is_dead` holds exactly when every symbol moves the composite nowhere |
| SubsetConstruction.MoveOutsideAlphabet | nfa.py:107-108 | a symbol outside the alphabet moves nothing, so the loop over `range(alphabet_size)` misses no edge |
| SubsetConstruction.SubsetConstructionUnique | nfa.py:94-128 | any two outcomes of the construction are equal: the worklist order does not matter |
| Nfa.NFA.Normalize | nfa.py:130-156 | when the flag is set (the integer phase, and after `minimize`) the whole state is unchanged; otherwise the start set is the start composite's index, the accept set holds the accept composites' indices, and the table is the renumbered composite table |
| Nfa.NFA.NormalizeTable | nfa.py:147-155 | the table built row by row is the renumbered composite table |
| Nfa.RenumberDone | nfa.py:147-155 | once every composite key is taken, the table built is the renumbered composite table |
| Nfa.NFA.NormalizeRow | nfa.py:150-153 | each destination of a row becomes the singleton of its index |
| SubsetConstruction.RenumberAt | nfa.py:147-155 | a composite key's index has a row exactly when the composite has one, and that row is the renumbered one |
| SubsetConstruction.RenumberShape | nfa.py:147-155 | renumbered keys lie in [0, \|list\|), distinct composites get distinct indices, and every destination is a singleton index of the composite destination |
| SubsetConstruction.RenumberedMove | nfa.py:147-155 | one step of the renumbered automaton from a composite's index is the index of that composite's move (empty when the move is empty) |
| SubsetConstruction.RenumberedRun | nfa.py:147-155 | on a non-empty word the renumbered automaton follows the composites' runs |
| SubsetConstruction.RenumberedEmptiness | nfa.py:74-156 | after every non-empty digit prefix, the original and renumbered live sets are empty together |
| SubsetConstruction.RenumberedAcceptance | nfa.py:144-145 | on every symbol sequence the renumbered automaton accepts exactly when the original does |
| SubsetConstruction.AcceptedComposite | nfa.py:144-145 | a processed composite's index is an accept state exactly when the composite meets the accept set |
| SubsetConstruction.DeterminizePreservesLanguage | nfa.py:74-156 | when every recorded symbol lies in [0, alphabet_size), `accepts` after `to_DFA` and `normalize` gives the same answer as on the original automaton on every string |
| Nfa.PruneKeepsMoves | nfa.py:186-191 | from inside the kept states, the pruned table moves exactly as the original one |
| Nfa.PruneKeepsRuns | nfa.py:186-191 | from inside a closed set of kept states, the pruned table runs every word exactly as the original one |
| Nfa.PruneToReach | nfa.py:186-191 | pruning to the reachable states changes no run from the start states |
| Nfa.NFA.Minimize | nfa.py:180-253 | the table is pruned to the reachable states; the undistinguished relation is the greatest consistent relation on it; ids go to exactly the states of classes with two or more members, shared exactly by undistinguished states, and numbered 0..count-1 in the order of the classes' least members; the accept set holds the ids of accept states; over a non-empty alphabet every class has a row with an entry on every symbol, and recorded destinations come from members' rows; the composite-phase fields and the processed list are unchanged; the new start set maps each start state through `get` |
| Nfa.NFA.MinimizeTables | nfa.py:187-253 | the reachable set is Reach of the start set and holds it; the pruned table keeps exactly the rows of reachable states; the marking and numbering on it satisfy MinimizedBy for the reachable accept states, with the classes numbered in the order of their least members, including a row with every symbol for every class; each start state is mapped through `get` |
| Minimization.MergeStates | nfa.py:195-248 | the unmarked pairs are the greatest consistent relation and an equivalence; the ids, counts, accept ids and rows are those Minimize states, the classes are numbered in the order of their least members, and every class having a row with an entry on every symbol of a non-empty alphabet |
| Minimization.InitialMarks | nfa.py:199-204 | the fresh n-by-n matrix marks exactly the pairs that differ in acceptance |
| Minimization.VisitPair | nfa.py:211-219 | the pair is marked through the first symbol whose successor pair is marked; nothing else changes; an unmarked pair left unmarked has unmarked successor pairs; no consistent relation is lost |
| Minimization.ScanRow | nfa.py:209-219 | marks are never cleared; a change removes pairs; without a change the row is stable; no consistent relation is lost |
| Minimization.Pass | nfa.py:207-219 | one scan keeps symmetry and the unmarked diagonal, never clears a mark, and leaves the matrix stable when it changes nothing |
| Minimization.MarkKeepsConsistent | nfa.py:215-218 | marking a pair whose successor pair is marked keeps every consistent relation inside the unmarked pairs |
| Minimization.StableIsConsistent | nfa.py:206-219 | at the fixpoint every unmarked pair agrees on acceptance and has unmarked successor pairs on every symbol |
| Minimization.Refine | nfa.py:206-219 | the `while changed` loop ends with the unmarked pairs equal to the greatest consistent relation |
| Minimization.GreatestConsistentIsEquivalence | nfa.py:221-248 | the greatest consistent relation is reflexive, symmetric and transitive |
| Minimization.ConverseConsistent | nfa.py:228-236 | the converse of a consistent relation is consistent |
| Minimization.ComposeConsistent | nfa.py:228-236 | the composition of a consistent relation with itself is consistent |
| Minimization.BuildClasses | nfa.py:221-248 | the scan gives ids to exactly the states in some undistinguished pair, two states share an id exactly when undistinguished, the ids are 0..count-1 and a class with a smaller id has a member below every member of a class with a larger id, the accept ids and recorded destinations come from the members, and over a non-empty alphabet every class has a row with an entry on every symbol |
| Minimization.ClassRow | nfa.py:226-248 | one row of the scan extends the classes built so far |
| Minimization.ClassPair | nfa.py:227-248 | one pair of the scan extends the classes built so far |
| Minimization.JoinPair | nfa.py:228-247 | an undistinguished pair extends the classes built so far: the ids, the count, the accept ids and the rows |
| Minimization.FreshOrdered | nfa.py:226-236 | a state that opens a new class lies above every earlier class's least member, so the least members stay in ascending order of id |
| Minimization.KnownOrdered | nfa.py:233-236 | a state that joins an existing class lies above that class's least member |
| Minimization.LeastMembersInOrder | nfa.py:225-236 | least members in ascending order of id number the classes by their least members |
| Minimization.ClassesOrderedAtEnd | nfa.py:225-248 | after the scan, a class with a smaller id has a member below every member of a class with a larger id |
| Minimization.LeastStateHasIdZero | nfa.py:225-232 | under that numbering the least state with an id has id 0 |
| Minimization.NumberPair | nfa.py:229-236 | after an undistinguished pair both states have the same id, the earlier ids stay, and only i and j gain one |
| Minimization.WriteRow | nfa.py:238-245 | class c's row gains, for every non-empty destination set, its chosen element through the id map; other rows are unchanged |
| Minimization.RowsFullAfterWrite | nfa.py:238-245 | writing a member's full row into an old class or the class just opened keeps a row with every symbol for every class |
| Minimization.Pick | nfa.py:212-213 | the element taken from a non-empty destination set belongs to it |
| Minimization.Next | nfa.py:212-213 | the successor the algorithm uses is a state and a destination of the row |
| Minimization.Lookup | nfa.py:243 | `get(t, t)` returns the id when there is one and t itself otherwise |
| Wrappers.Get | nfa.py:251 | `get(k)` is None exactly when k has no entry, and otherwise the stored value |
| Scenarios.RejectsNegativeSizes | test_nfa.py:68-75 | constructing with a negative number of states, or of symbols, is the size error |
| Scenarios.ExampleStructure | test_nfa.py:80-86 | the test automaton has rows for 0, 1 and 2, with two, two and no entries |
| Scenarios.ExampleRejectsEmpty | test_nfa.py:44-46 | the test automaton rejects the empty string |
| Scenarios.ExampleRejects00 | test_nfa.py:48-50 | the test automaton rejects "00" |
| Scenarios.ExampleRejects01 | test_nfa.py:52-54 | the test automaton rejects "01" |
| Scenarios.ExampleAccepts10 | test_nfa.py:56-58 | the test automaton accepts "10" |
| Scenarios.ExampleAccepts110 | test_nfa.py:60-62 | the test automaton accepts "110" |
| Scenarios.ExampleRejects111 | test_nfa.py:64-66 | the test automaton rejects "111" |
| Scenarios.ExampleRejectsLetters | test_nfa.py:77-78 | a string of letters is the conversion error on its first character |
| Scenarios.ExampleAccepts | test_nfa.py:44-78 | the seven answers the acceptance tests expect, together |
| Scenarios.ExampleAnswersOfAccepts | test_nfa.py:44-78 | calling `Accepts` on the test automaton returns those seven answers |
| Scenarios.LectureAccepts | test_nfa.py:88-92 | the lecture automaton accepts "01" and "01101" and rejects "00" and "010" |
| Scenarios.LectureConstruction | test_nfa.py:94-107 | the subset construction of the lecture automaton has the composites {0}, {0, 1}, {0, 2}, the accept composite {0, 2} and the three expected rows |
| Scenarios.LectureDeterminize | test_nfa.py:94-107 | `ToDFA` on the lecture automaton yields start {0}, accept composites {{0, 2}} and the expected table |
| Scenarios.LectureNormalize | test_nfa.py:111-114 | after `Normalize` the start and accept sets are the distinct singletons of the indices of {0} and {0, 2}, and the four answers are kept |
| Scenarios.LectureRenumbered | nfa.py:130-156 | renumbering the lecture construction along any listing gives distinct start and accept singletons and keeps the four answers |
| Scenarios.LectureNormalizedAnswers | test_nfa.py:116-119 | `Accepts` on the normalized lecture automaton answers true, false, true, false |

## Left out

- `read_from_file`, `write_to_file` (nfa.py:18-29, 158-178) and `sim.py` are file and console I/O. The file round trip at test_nfa.py:121-124 depends on them, so it is not modelled. The assertions at test_nfa.py:125-128 are on the in-memory automaton and are `Scenarios.LectureNormalizedAnswers`.
- The constructor keeps references to the caller's sets and table (nfa.py:12-14), so `add_transition` (nfa.py:31-38) and `intersection_update` (nfa.py:192-193) change the caller's own objects. The model gives each object its own values, so this aliasing is not modelled, for any argument.
- The constructor's default arguments (nfa.py:5-6) are not modelled: every argument is explicit. The defaults are mutable and shared between instances in Python, and they are dicts `{}`, not sets, so `NFA().accepts("")` raises `TypeError` (dict & dict, nfa.py:58) and `NFA().minimize()` raises `AttributeError`. Each Dafny object holds its own sets and table.
- Nfa.NFA.ToDFA: `list(processed)` at nfa.py:124 takes its order from hashing. The model lets `processedList` be any duplicate-free listing of the processed composites. The particular indices at test_nfa.py:113-114 (start {2}, accept {1}) therefore are not proved; `Scenarios.LectureNormalize` proves what holds for every listing.
- Nfa.NFA.ToDFA: the start set after `to_DFA` is a bare composite (nfa.py:126). It is held in its own field `dStart`, and the composite phase's accept set and table are held in `dAccept` and `dTrans`.
- Nfa.NFA.Accepts: requires the integer phase. In the composite phase (nfa.py:126-128) the start set is a bare frozenset whose integer members have no row in the composite-keyed table, so the source's `accepts` returns False on every digit string (`_transitions.get` of an integer is None); in the minimized phase the destinations are plain integers rather than sets. Neither answer is modelled.
- Nfa.NFA.AddTransition: requires the integer phase, for the same reason.
- Nfa.NFA.ToDFA: requires the integer phase. A second `to_DFA` in the composite phase runs with integer states against the composite-keyed table, finds no edges and leaves an empty table; that outcome, and `to_DFA` after `minimize`, are not modelled.
- Nfa.NFA.Minimize: requires the flag set and the integer phase. In the composite phase the source's `minimize` raises `AttributeError` at `intersection_update` on the frozenset start set (nfa.py:192). A second `minimize` raises `TypeError` in the search (nfa.py:69) when some start state got an id, because the destinations are now plain integers; when every start state is `None` it ends with an empty table, start set `{None}` and an empty accept set. None of these outcomes is modelled.
- Simulation.DigitValue: only the ASCII digits '0'..'9' are accepted as symbols. Python's `int` also accepts other Unicode decimal digits, such as Arabic-Indic numerals.
- Minimization.Pick: which element `list(s)[0]` and `next(iter(s))` yield depends on the set's layout. The model takes the least element, in both places.
- Nfa.NFA.Minimize: requires MinimizeDefined. After pruning, the table's states must be exactly 0..n-1, and every state must have a non-empty destination set on every symbol whose chosen element is again a state. The source indexes its matrix by state id (nfa.py:212-215). Otherwise it either raises (`KeyError`, `IndexError`) or runs on and reads the matrix at another state's position: with keys {0, 2} and every target 0, every position it reads is in range and it returns a table, and a negative id wraps around to the end of the row. The model also assumes the keys are listed in ascending order, so that `states[i] == i`.
- SubsetConstruction.DeterminizePreservesLanguage: requires that every recorded symbol lies in [0, alphabet_size). `add_transition` (nfa.py:31-38) accepts any symbol, while `to_DFA` only follows `range(alphabet_size)` (nfa.py:107). With alphabet size 1, start {0}, accept {1} and the one edge 0 --1--> 1, "1" is accepted before and rejected after `to_DFA` and `normalize`.
- Nfa.NFA.Minimize: MinimizeDefined asks for full rows even when there is at most one state, where the source's pair loops (nfa.py:209-213) never read the table.
- Nfa.NFA.Minimize: every class has an entry on every symbol, but the values of the class rows are stated only as coming from some member of the class, raw or renumbered, and not which member's row is written last. The source copies only the row of `states[i]` (nfa.py:238), so a class's largest member never writes. It stores a target's id exactly when that target was numbered before the row was written (nfa.py:243). The contract leaves open the member, and whether the target is raw or renumbered.
- Nfa.NFA.MinimizeTables: the values of the class rows are stated only as coming from some member's row, raw or renumbered, for the reason above.
- Minimization.MergeStates: the same holds of the class rows it returns (raw or renumbered, from any member).
- Minimization.BuildClasses: the same holds of the class rows it builds (raw or renumbered, from any member).
- Nfa.NFA.Minimize: the contract states no language preservation and not the result test_nfa.py:130-138 expects. The class-building step (nfa.py:225-253) gives ids only to states in some undistinguished pair. On the lecture DFA, state 0 gets no id, so the start set becomes {None} and the accept set {0}, not the {0} and {1} the test asserts.
- The marks' witness symbol (the value `symbol` stored at nfa.py:216-217) is recorded, but only whether a pair is marked is used.
