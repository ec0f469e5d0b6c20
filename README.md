# GraphPlan planning-graph engine in Dafny

This project models the engine of `graphplan.py`, a Python port of Blum and
Furst's GraphPlan. It covers five parts.

- **Terms and interning** (`terms.dfy`, `interning.dfy`).
  - Typed constants (`Instance`), typed placeholders (`Variable`) and literals with a polarity.
  - Substitution of bound placeholders.
  - The class-level `prophash` interning table. It is an `Interner` object holding a map from signature to propnum and the sequence of signatures in registration order.
- **Grounding** (`grounding.dfy`, `binder.dfy`).
  - The instance table, grouped by kind with duplicates removed.
  - The cross product of parameter bindings.
  - The bindprops of an operator: the bindings whose non-`equal` preconditions all have a node in the previous level and whose `equal` preconditions hold.
  - The filter that rejects bindprops whose supporting nodes contain a mutex pair.
- **The planning graph** (`graph.dfy`, `edits.dfy`, `planner.dfy`).
  - The graph is an arena: `propLevels: seq<seq<PropNode>>` and `actionLevels: seq<seq<ActionNode>>`.
  - Links between nodes (users, adders, deleters, excludes, precs, adds, deletes) are indices into the neighbouring level.
  - A proposition node compares by propnum. An action node compares by its index, which stands for Python object identity.
  - `Planner.PlanningProblem` is a class whose methods update the levels in place. It covers `extend_graph_level`, the noop and operator actions, find-or-create of proposition nodes, and the two exclusion-link passes.
  - Every method keeps the well-formedness invariant `GraphOk`. It says every link points into its neighbouring level, adders and adds agree, and level 0 carries no excludes.
- **Mutex propagation and the fixpoint test** (`excludes.dfy`).
  - Action mutex: inconsistent effects, interference and competing needs.
  - Proposition mutex.
  - `leveled_off` and `terminate`.
- **Backward extraction** (`extraction.dfy`, `search.dfy`, `planner.dfy`).
  - The helpers `mutually_exclusive`, `forward_cutoff`, `minimal_action_set` and the memo key.
  - The recursive `solve_goals`, with its per-level memo of failed goal sets.
  - The `solve` driver.
  - Soundness: a returned plan has one compatible layer of actions per level. Each action's preconditions are achieved by the layer below, the top layer achieves the goals, and the bottom layer's preconditions are initial nodes. Every layer is minimal for the goals it serves, as `minimal_action_set` demands.
  - The IndexError `solve_goals` raises when it advances a level with no new goals is an outcome of its own. It can happen only when the goal list is empty or some action has no preconditions at all.

`wrappers.dfy` holds `Option` and `lists.dfy` holds `safeIndex` and small
sequence helpers.

## Model

| member | source | states |
|---|---|---|
| Lists.SafeIndex | graphplan.py:14-29 | returns the first index whose element satisfies the predicate, or None exactly when no element does |
| Terms.Subst | graphplan.py:140-142 | each bound Variable is replaced by its binding and every other argument, the predicate and the polarity are kept; a literal whose Variables are all bound becomes ground; a ground literal is unchanged |
| Terms.TermEq | graphplan.py:43-48 | an Instance equals exactly the same Instance (name and kind); equal terms compare equal; only a Variable on the left can equal a term of the other sort |
| Interning.CanonicalPropnums | graphplan.py:80-97 | in a table built only through `newish`, distinct signatures carry distinct propnums, each between 1 and the table size |
| Interning.OverwriteSharesPropnum | graphplan.py:85-89 | calling the constructor on a signature already registered, other than the newest, gives it the propnum of another signature |
| Interning.Interner.constructor | graphplan.py:78 | the table starts empty and canonical |
| Interning.Interner.Create | graphplan.py:80-89 | a literal with a Variable argument gets no propnum and leaves the table alone; a ground literal is (re)registered with propnum equal to the table size after insertion |
| Interning.Interner.Newish | graphplan.py:91-97 | a registered signature returns its stored propnum with the table unchanged; a new ground signature is registered; a non-ground one keeps propnum None; existing entries are kept and canonicity is preserved |
| Interning.Interner.Instantiate | graphplan.py:140-142 | the result's signature is the substituted template, interned as `newish` does: the table afterwards is `Interned` of the old table and that one signature |
| Interning.InternedEffect | graphplan.py:91-97 | interning a list of signatures in turn keeps the table well formed, keeps every entry with its propnum, keeps a canonical table canonical, and registers exactly the old signatures plus the ground ones of the list |
| Interning.InternedConcat | graphplan.py:91-97 | interning two lists one after the other is the same as interning their concatenation |
| Interning.InternOne | graphplan.py:84-89 | registering a new ground signature with the next propnum keeps the table well formed, keeps every entry and keeps a canonical table canonical |
| Grounding.GenerateInstanceTable | graphplan.py:343-349 | the keys are exactly the kinds of the instances; each kind maps to its instances in first-occurrence order, duplicate-free |
| Grounding.OfKindFacts | graphplan.py:343-349 | an instance list of a kind is duplicate-free and holds exactly the instances of that kind |
| Grounding.GenerateBindings | graphplan.py:160-172 | fails (the KeyError) exactly when some parameter kind has no entry; otherwise returns the cross product `BindingsUpTo` in the source's order |
| Grounding.BindingsCount | graphplan.py:160-172 | the number of bindings is the product of the parameters' instance-list lengths |
| Grounding.BindingsTotal | graphplan.py:160-172 | every binding maps each parameter to an instance of its kind |
| Grounding.BindingsComplete | graphplan.py:160-172 | every such total binding is generated |
| Grounding.BindingsDistinct | graphplan.py:160-172 | bindings are pairwise distinct when the parameters are distinct and the instance lists duplicate-free |
| Graph.FirstMatch | graphplan.py:456-460 | the first node whose literal equals the given one, or None exactly when there is none |
| Graph.GetExistingPropnode | graphplan.py:456-460 | the loop finds the same node as `FirstMatch` |
| Graph.DistinctLiteralsPairwise | graphplan.py:462-468 | the recursive "no literal twice" predicate the builder threads through holds exactly when no two nodes of the level share a literal |
| Graph.DeletesAddition | graphplan.py:307-310 | true exactly when a delete of the first action has the propnum of an add of the second |
| Graph.DeletesPrecondition | graphplan.py:312-318 | true exactly when a delete of the first action has the literal of a precondition of the second |
| Graph.CompetingNeeds | graphplan.py:320-325 | true exactly when a precondition of the second action is in the excludes of a precondition of the first |
| Graph.ExcludesProp | graphplan.py:242-248 | true exactly when every adder of the first node has every adder of the second in its excludes (vacuous with no adders) |
| Graph.AddersExcludedSymmetric | graphplan.py:242-248 | when action excludes are symmetric, the adders test is symmetric |
| Binder.SupportCharacterized | graphplan.py:174-197 | a binding has supporting nodes exactly when every `equal` precondition's equality matches its polarity and every other instantiated precondition has a node; the nodes are the first matches in precondition order |
| Binder.BindPropsMember | graphplan.py:174-197 | a bindprop is produced exactly for a binding of the list together with its supporting nodes |
| Binder.GenerateBindprops | graphplan.py:174-197 | the nested loops produce `BindProps` over the generated bindings; the interning table afterwards is the old one with every precondition the loops instantiate interned in order (`TriedAll`: per binding, the preconditions up to and including the first that fails), so it keeps its entries and its canonicity |
| Binder.BindPreconditions | graphplan.py:178-195 | the inner loop over preconditions yields the supporting nodes of `Support`, or None when a precondition fails; the table afterwards is the old one with the preconditions it instantiated (`Tried`) interned in order |
| Binder.Tried | graphplan.py:178-192 | the inner loop instantiates at most one literal per precondition, and every precondition when the binding is supported |
| Binder.TriedInstances | graphplan.py:178-180 | the k-th literal instantiated is the k-th precondition under the binding |
| Binder.TriedPrefixNone | graphplan.py:182-192 | once a prefix of the preconditions has failed, no later precondition is instantiated |
| Binder.TriedStops | graphplan.py:182-192 | when precondition k is the first that fails, exactly the first k + 1 preconditions are instantiated |
| Binder.PreconditionsExcluded | graphplan.py:212-219 | None exactly when no supporting node excludes another (compared by propnum); otherwise the first supporting node that does |
| Binder.Unexcluded | graphplan.py:383-384 | keeps exactly the bindprops with no mutex pair among their supporting nodes |
| Binder.ActionBindPropsExactly | graphplan.py:381-386 | an action is built for a binding exactly when it is total over the parameters, all its preconditions are satisfied with those nodes as support, and no two support nodes are mutex |
| Extraction.Remove | graphplan.py:528-529 | the goals left are exactly those whose propnum no add carries, and the list shrinks when one is struck off |
| Extraction.RemoveNothing | graphplan.py:528-529 | with no adds to strike off, every goal is kept, in order |
| Extraction.SortByNum | graphplan.py:504 | the result is sorted by propnum and a permutation of its input |
| Extraction.GoalKeyOrderFree | graphplan.py:504-508 | goal lists with the same propnums give the same memo key, whatever their order |
| Extraction.GoalKeySorted | graphplan.py:504-508 | the memo key is the ascending list of the goals' propnums |
| Extraction.MutuallyExclusive | graphplan.py:538-548 | true exactly when a later goal of the list is in an earlier goal's excludes (compared by propnum) |
| Extraction.GoalsMutexExtends | graphplan.py:539-549 | a goal list with a mutex pair keeps it when more goals are added on either side |
| Extraction.ForwardCutoff | graphplan.py:551-565 | true exactly when the comprehension as written, which tests each achiever against its own excludes, leaves some goal with no achiever |
| Extraction.ForwardCutoffIgnoresSelection | graphplan.py:551-565 | with no action excluding itself, the cutoff as written fires exactly when some goal has no adders, whatever the selection |
| Extraction.ForwardCutoffSound | graphplan.py:551-565 | with no action excluding itself, whenever the cutoff as written fires, the cutoff the doc comment describes fires too |
| Extraction.ForwardCutoffMissesExcludedAchiever | graphplan.py:551-565 | an input where every achiever of a goal is excluded by the selection, yet the cutoff as written does not fire |
| Extraction.Without | graphplan.py:574 | the selection with one action removed: exactly the other members |
| Extraction.Uncovered | graphplan.py:575-577 | exactly the goals no action of the selection adds |
| Extraction.MinimalActionSet | graphplan.py:567-581 | false exactly when removing some action leaves a non-empty selection that still adds every goal |
| Extraction.CoveredWithout | graphplan.py:575-580 | true exactly when the reduced selection is non-empty and adds every goal |
| Search.BaseFound | graphplan.py:499-502 | at level 0 with no pending goal, the current selection is a plan for the search state |
| Search.AdvanceFound | graphplan.py:499-517 | a plan found one level down for the propnum-sorted collected goals, with `[]` prepended for that level, is a plan for the current state, and the current layer stays minimal for the goals it was chosen for |
| Search.PickState | graphplan.py:519-531 | selecting an achiever of the first pending goal gives a valid search state with strictly fewer pending goals, and every goal is either pending or achieved |
| Search.PickFound | graphplan.py:519-535 | a plan found after selecting an achiever that was not excluded, did not trigger the cutoff and kept the selection minimal is a plan for the state before |
| Search.TopFound | graphplan.py:470-489 | a plan found from the top level is sound: compatible layers, preconditions achieved below, goals achieved at the top, and every layer minimal for the goals it serves |
| Search.LayerPrecs | graphplan.py:531-532 | the new goals collected from a layer: nodes of the level that list, up to propnum, exactly the preconditions of the selected actions |
| Search.NoPrecsListed | graphplan.py:499-500 | when a layer collects no new goals, each of its actions has no preconditions |
| Search.MinimalPermuted | graphplan.py:504-512 | a layer minimal for its goals is minimal for any list with the same propnums, so sorting the goals before the descent keeps minimality |
| GraphEdits.Noops | graphplan.py:371-379 | the persistence level has one noop per node of the level below, in order |
| GraphEdits.Persisted | graphplan.py:371-379 | the new level starts with one copy of each lower node's literal, each added by its noop |
| GraphEdits.NoopsOk | graphplan.py:371-379 | adding the noops and copies to an empty pair of levels keeps the graph well formed |
| ExcludeLinks.MutexPair | graphplan.py:414-418 | true exactly when one of the three action-mutex tests holds |
| ExcludeLinks.ActionExcludesDone | graphplan.py:410-422 | after all pairs, b is in a's excludes exactly when a and b are distinct actions and one of the tests holds in either direction; the relation is symmetric and irreflexive |
| ExcludeLinks.ActionExcludesFinal | graphplan.py:410-422 | the complete action-mutex relation survives later edits of the effect level that keep its literals |
| ExcludeLinks.PropExcludesMembers | graphplan.py:424-428 | the excludes built for a node hold exactly the nodes with a different propnum whose adders are all excluded by the node's adders, in ascending order without repeats |
| ExcludeLinks.PropExcludesFinal | graphplan.py:424-428 | the pass leaves every node unchanged except for its complete excludes list |
| ExcludeLinks.PropExcludesMeaning | graphplan.py:424-428 | in a completed level, q is in p's excludes exactly when p and q are proposition-mutex |
| ExcludeLinks.PropMutexSymmetric | graphplan.py:242-248 | proposition mutex is symmetric whenever action excludes are |
| ExcludeLinks.ExcludeCountZero | graphplan.py:443-449 | the summed excludes length is zero exactly when no node has an exclude |
| ExcludeLinks.CountExcludes | graphplan.py:443-449 | the loop computes the summed length of the level's excludes lists |
| Planner.DistinctKept | graphplan.py:462-468 | a level that keeps its literals in place keeps them distinct |
| Planner.GrowKeepsUnique | graphplan.py:356-369 | if every level holds each literal at most once, it still does after one more level is added whose old top keeps that property |
| Planner.InitialDistinct | graphplan.py:351-354 | level 0 holds each literal at most once exactly when the initial literals are distinct |
| Planner.OperatorsKnown | graphplan.py:160-172 | when every parameter kind has an instance, every well-formed operator's parameters are keys of the instance table, so grounding never fails |
| Planner.PlanningProblem.constructor | graphplan.py:329-341 | stores the inputs, builds the instance table by kind, puts one node per initial literal at level 0, sets level −1 and a single empty memo; level 0 is duplicate-free exactly when the initial literals are |
| Planner.PlanningProblem.PopulatePropLevel0 | graphplan.py:351-354 | level 0 holds one fresh node per initial literal, in order |
| Planner.PlanningProblem.GetPropnode | graphplan.py:462-468 | returns the first node with the literal; if there was one nothing changes, otherwise exactly one fresh node is appended to that level and nothing else changes; no literal is duplicated |
| Planner.PlanningProblem.LinkUsers | graphplan.py:391-392 | the action is appended to the users of each precondition node, once per occurrence, and nothing else changes |
| Planner.PlanningProblem.LinkAdders | graphplan.py:398-399 | the action is appended to the adders of each node it adds, and nothing else changes |
| Planner.PlanningProblem.LinkDeleters | graphplan.py:405-406 | the action is appended to the deleters of each node it deletes, and nothing else changes |
| Planner.PlanningProblem.EffectNodes | graphplan.py:394-397 | each effect template, instantiated under the binding, has its node found or created at the next level, and only nodes for those literals are added |
| Planner.PlanningProblem.EffectNode | graphplan.py:394-397 | the effect template instantiated under the binding is interned as `newish` does and its first node at the level is returned; when the level had none, exactly one fresh node is appended, carrying that literal and its registered propnum and no links |
| Planner.PlanningProblem.EffectsOf | graphplan.py:394-404 | first the adds, then the deletes, each found or created as `get_propnode` does |
| Planner.PlanningProblem.LinkEffects | graphplan.py:398-406 | the action becomes an adder of exactly its adds and a deleter of exactly its deletes |
| Planner.PlanningProblem.GenerateActionNode | graphplan.py:388-408 | one action node is appended, with the bindprop's nodes as preconditions and the found-or-created effect nodes as adds and deletes; it is a user, adder and deleter of exactly those nodes; the effect level only gains nodes for the action's literals |
| Planner.PlanningProblem.AddActionNode | graphplan.py:386-408 | the same action node as seen from the operator loop: earlier nodes of the effect level keep their literals and only gain effect links |
| Planner.PlanningProblem.GenerateNoopActions | graphplan.py:371-379 | the action level becomes the noops, the lower level gains each noop as user, and the new level the persisted copies |
| Planner.PlanningProblem.FilterBindprops | graphplan.py:383-384 | the comprehension keeps exactly the unexcluded bindprops, in order |
| Planner.PlanningProblem.GenerateActionNodes | graphplan.py:385-386 | one action node per kept bindprop is appended, in order, and each is the action for its bindprop |
| Planner.PlanningProblem.UnexcludedBindprops | graphplan.py:382-384 | the bindprops of the operator over the lower level with no mutex pair of support nodes; the interning table gains exactly the preconditions grounding instantiated (`TriedAll`) |
| Planner.PlanningProblem.GenerateOperatorActions | graphplan.py:381-386 | the actions appended for an operator are exactly one per binding that `ActionBindProps` accepts, in order; lower levels change only by gaining users |
| Planner.PlanningProblem.GenerateAllOperatorActions | graphplan.py:365-366 | the new action level grows by one block per operator, in operator order; each block is the operator's actions for exactly the bindprops `ActionBindProps` accepts over the lower level as it was before the loop; the lower level only gains users, the new level keeps its literals and only gains effect links and fresh nodes, and no excludes appear yet |
| Planner.OperatorsDoneStep | graphplan.py:365-366 | the loop state after some operators extends to one more operator when its actions are appended after theirs |
| Planner.OperatorBlocksStep | graphplan.py:365-366 | the blocks appended so far survive effect links added later, and one more block follows them |
| Planner.GrowKeepsPersist | graphplan.py:356-369 | if every literal of each level persists to the level above, it still does after one more level is built on top |
| Planner.PlanningProblem.GenerateLevelActions | graphplan.py:362-366 | starting from two empty levels: the old top only gains users, the action level starts with the noops, the new level grows from the persisted copies only by effect links and fresh nodes and keeps its literals distinct, no excludes appear yet, and the table keeps its entries and canonicity |
| Planner.PlanningProblem.GenerateActionExcludesLinks | graphplan.py:410-422 | every ordered pair of actions of the new level is tested and the excludes relation it leaves is the complete action mutex |
| Planner.PlanningProblem.GeneratePropositionExcludesLinks | graphplan.py:424-428 | each node of the new level gets exactly its proposition-mutex partners as excludes, and nothing else changes |
| Planner.PlanningProblem.ExtendGraphLevel | graphplan.py:356-369 | adds one action level and one proposition level and one empty memo entry; the levels below are untouched except that the old top gains users; every old top literal persists upward; noops come first; both new levels carry their complete mutex relations; a duplicate-free top stays duplicate-free; the interning table keeps its entries and canonicity |
| Planner.PlanningProblem.LeveledOff | graphplan.py:431-454 | true exactly when there are two levels or more, the last two have the same size, and the same summed excludes length |
| Planner.PlanningProblem.Terminate | graphplan.py:583-590 | true exactly when the graph has leveled off and the last two memo levels hold as many failed goal sets |
| Planner.PlanningProblem.SolveGoals | graphplan.py:497-537 | any plan returned is a plan for the search state; with nothing pending and no new goals it ends in the IndexError outcome, which otherwise arises only from a precondition-free action; the memo only gains entries; a memo hit returns no plan and leaves the memo unchanged; a failed level advance records its goal key |
| Planner.PlanningProblem.AdvanceLevel | graphplan.py:499-517 | with no new goals ends in the IndexError outcome and leaves the memo alone; at level 0 returns the selection; otherwise rejects a memoized goal key, searches one level down, and records the key on failure |
| Planner.PlanningProblem.Regress | graphplan.py:503-517 | a memoized goal key gives no plan and leaves the memo unchanged; otherwise any plan found one level down for the sorted goals is a plan for the current state, and a failure records the key |
| Planner.PlanningProblem.TryAction | graphplan.py:519-535 | any outcome other than failure means the achiever was chosen: no selected action excludes it, the cutoff does not fire and the selection stays minimal; any plan returned is a plan for the state before |
| Planner.PlanningProblem.Descend | graphplan.py:528-535 | for a chosen achiever, any plan found once its adds are struck off and its preconditions collected is a plan for the state before; the IndexError outcome comes back only when some action has no preconditions |
| Planner.PlanningProblem.GoalNodes | graphplan.py:473-474 | None exactly when some goal literal has no node in the top level; otherwise each goal's first node there |
| Planner.PlanningProblem.Solve | graphplan.py:470-489 | any plan returned achieves the goals' top nodes from the initial level, with no two goals mutex and every layer minimal; "no solution" is returned only once `terminate` holds; the IndexError outcome only for an empty goal list or a precondition-free action; literals stay unique per level and keep persisting upward; the action levels only grow, the memo's failed goal sets are only added to, and the interning table keeps its entries and canonicity |
| Planner.PlanningProblem.SolveNextLevel | graphplan.py:473-487 | exactly one more level is built on top of unchanged lower levels; a missing goal or a mutex goal pair gives "no solution" with the memo left as the new level's empty entry, and "no solution" arises only from those or a goal key recorded as failed at the top level; the memo's entries only grow; any plan returned is sound; an empty goal list gives the IndexError outcome; the table keeps its entries and canonicity |
| Planner.PlanningProblem.SearchTopLevel | graphplan.py:475-487 | a missing goal, a mutex goal pair or an already memoized goal key gives "no solution" with the memo untouched; "no solution" arises only from those or a goal key the search records as failed; the memo's entries only grow; any plan returned is sound; an empty goal list gives the IndexError outcome |
| Planner.GoalsAtUnique | graphplan.py:473-474 | the goals' list of top nodes, when it exists, is unique |

## Left out

- Printing and diagnostics are not modelled. This covers every `__str__` and `__repr__`, `dump`, and the `print` calls in `solve`, `solve_goals` and `minimal_action_set`.
- The `str`-based hashing is not modelled. `Proposition.__str__` leaves `sign` unassigned for a negative literal, so hashing such a literal raises. Memo keys are instead the sorted propnum lists `solve_goals` builds them from.
- `NODE_COUNTER` is used only for display numbering and is not modelled.
- Python object identity and `__hash__` become indices into the level arrays.
- `deepcopy` of a binding becomes a copy of a map value.
- The example problem scripts (blocks.py, rocket.py and the others) are domain data and driver calls, and are not modelled.
- Planner.PlanningProblem.Solve: the source loops without a bound. The model takes a `fuel` level limit and returns `LevelLimit` when it runs out, so non-termination of the source loop on an unsolvable, never-terminating problem is not captured.
- Planner.PlanningProblem.SolveGoals: proves that every returned plan is sound. It does not prove that a plan is found whenever one exists at that level.
- Planner.PlanningProblem.GenerateActionNode: the node is appended to its level before it is linked. The source links first and appends in the comprehension afterwards; both give the same final graph.
- Planner.PlanningProblem.ExtendGraphLevel: states the new action level's noop prefix, mutex relations and the persistence of literals, but not the per-operator contents of the finished level. `GenerateAllOperatorActions` states those before the exclusion links are added.
- Planner.PlanningProblem.AdvanceLevel: the in-place `sort` is modelled by the function `SortByNum`, a stable insertion sort by propnum. Only its propnum order and permutation matter to the memo key and the search.
- Extraction.ForwardCutoff: modelled as written. It tests each achiever against its own excludes, not against the selected actions the doc comment names. `ForwardCutoffMissesExcludedAchiever` exhibits the difference.
- The level of `solve_goals` is an explicit parameter. The source reads it from the first goal node's `level`; `SearchState` ties the two together.
- Interning.Interner.Create: calling the Proposition constructor directly on an already registered signature is modelled. It is used only by code outside the engine, and `OverwriteSharesPropnum` states its consequence.
- Planner.PlanningProblem.constructor: its requires limit the model to well-formed problems. Initial literals are ground (interned). Every operator's effects mention only its parameters, and its `equal` preconditions have at least two arguments. Every parameter kind has an instance (`KindsInhabited`). The source accepts other problems and runs until grounding, instantiation or the search fails on them; those failure paths are not modelled.
- The IndexError of `solve_goals` is not raised. It becomes the `NoGoals` outcome of the search and the `IndexError` result of `solve`, which stops there just as the exception would end the loop.
