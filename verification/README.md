# DBA Bandit: double-DQN index selection and plan helpers, in Dafny

This project models two parts of the DBA Bandit index advisor.

The first is the PyTorch double-DQN learner in `bandits/rl_ddqn_pytorch.py`. It has four parts:

- the `SumTree` of priorities;
- the prioritized replay `Memory`;
- the `Agent` (`act`, `observe`, `_get_targets`, `replay`);
- the `DDQN` bandit that picks an index to build (`init_agents`, `set_arms`, `select_arm`, `update`).

The second is a set of pure helpers in `database/sql_helper_postgres.py`:

- the walk over a PostgreSQL JSON query plan that records index and table usage;
- the group-by-key merge of usage tuples;
- the per-table selectivity clamp;
- the index-size estimate.

Every operation is a pure function over immutable values. Failures the Python code raises become `Err` results of the `Wrappers.Result` type: an `IndexError`, a shape mismatch in the network, or a `TypeError` on numpy's placeholder payload. The neural network is a record of two functions, `predict` and `train`, over an abstract weight type. Random draws are parameters. So are `math.exp`, `math.log` and `x ** 0.6`, which come in a `Numerics` record. The predicate `Numerics.Sound` lists the facts about them that the proofs use, and the decay constant `LAMBDA` is defined from `log` as the source defines it. Python's floats are modelled as exact reals (see "## Left out").

Files:

- `wrappers.dfy`: `Option` and `Result`.
- `sums.dfy`: sums of real sequences.
- `sum_tree.dfy` (`PriorityTree`): the sum-tree, plus the capacity-1 finding.
- `replay_memory.dfy` (`ReplayMemory`): the prioritized replay memory.
- `numerics.dfy` (`Numerics`): the exploration schedule.
- `agent.dfy` (`Learning`): the agent.
- `controller.dfy` (`IndexBandit`): the `DDQN` class.
- `plan_usage.dfy` (`PlanUsage`): `_collect_plan_usage`.
- `merge.dfy` (`IndexUseMerge`): `merge_index_use`.
- `estimates.dfy` (`Estimates`): selectivity and index size.

## Model

| member | source | states |
|---|---|---|
| PriorityTree.Create | bandits/rl_ddqn_pytorch.py:36-39 | capacity 0 fails (numpy's negative length); otherwise a valid all-zero tree of `2c-1` nodes with empty slots, cursor 0, total 0 |
| PriorityTree.Propagate | bandits/rl_ddqn_pytorch.py:41-45 | every strict ancestor of `idx` gains `change` and no other node moves; a tree broken only at the parent of `idx` comes out with every internal sum restored |
| PriorityTree.PropagateLoop | bandits/rl_ddqn_pytorch.py:41-45 | the iterative climb to the root gives the same array as the recursion, with each ancestor shifted by `change` |
| PriorityTree.Update | bandits/rl_ddqn_pytorch.py:70-73 | the leaf becomes `p`; every other leaf, the payloads and the cursor are unchanged; the tree stays valid; the total moves by `p - old`; non-negative leaves stay non-negative |
| PriorityTree.RootIsLeafSum | bandits/rl_ddqn_pytorch.py:59-60 | `total()` equals the sum of all leaf priorities |
| PriorityTree.Descend | bandits/rl_ddqn_pytorch.py:47-57 | `_retrieve` always stops at a leaf whose index is at least the start node's (`DescendIsInverseCdf` places it in the start node's subtree) |
| PriorityTree.RetrieveLoop | bandits/rl_ddqn_pytorch.py:47-57 | the iterative descent reaches the same leaf as the recursive one |
| PriorityTree.NodeIsSumOfItsLeaves | bandits/rl_ddqn_pytorch.py:41-45 | with all sums holding, every node equals the sum of the leaves below it, left to right |
| PriorityTree.DescendIsInverseCdf | bandits/rl_ddqn_pytorch.py:54-57 | for `0 <= s <= tree[i]` and non-negative leaves, the descent ends at the first leaf, left to right, whose cumulative priority reaches `s` |
| PriorityTree.Get | bandits/rl_ddqn_pytorch.py:75-78 | the index is a leaf in `[c-1, 2c-2]`, its data index is in `[0, c)`, and the triple holds that leaf's priority and that slot's payload |
| PriorityTree.Add | bandits/rl_ddqn_pytorch.py:62-68 | the payload lands in `data[write]` and the priority in its leaf; the cursor advances and wraps to 0 at capacity; no other slot or leaf changes; the tree stays valid |
| PriorityTree.WrapStep | bandits/rl_ddqn_pytorch.py:66-68 | one more step of the cursor counter is the source's increment followed by reset at `capacity` |
| PriorityTree.SlotIsMod | bandits/rl_ddqn_pytorch.py:62-68 | the slot of the `j`-th later insertion is `(write + j) % capacity` |
| PriorityTree.SlotsDistinct | bandits/rl_ddqn_pytorch.py:62-68 | insertions fewer than `capacity` apart write different slots |
| PriorityTree.AddRun | bandits/rl_ddqn_pytorch.py:62-68 | FIFO over a run of adds: the newest `capacity` items sit in their slots with their priorities, unreached slots are untouched, and the cursor ends `|items|` slots on, mod capacity |
| PriorityTree.AddKeepsOtherSlots | bandits/rl_ddqn_pytorch.py:62-68 | an add leaves every slot other than the cursor's, and its leaf, unchanged |
| PriorityTree.PropagateAsWritten | bandits/rl_ddqn_pytorch.py:41-45 | `_propagate` as written, with floor division, negative subscripts and a recursion limit: it keeps the array's length and, started from any index of the tree, can fail only by exhausting the recursion limit, never by a bad subscript |
| PriorityTree.PropagateAsWrittenAgrees | bandits/rl_ddqn_pytorch.py:41-45 | below the root, the source's recursion, with floor division and negative indexing, gives exactly `Propagate` |
| PriorityTree.RootPropagationNeverStops | bandits/rl_ddqn_pytorch.py:41-45 | on a one-node tree, propagation from the root never reaches a parent of 0 and exhausts any recursion limit |
| PriorityTree.CapacityOneUpdateDiverges | bandits/rl_ddqn_pytorch.py:70-73 | with capacity 1, `update` as written exhausts the recursion limit, whereas `Update` sets the root to `p` |
| ReplayMemory.Create | bandits/rl_ddqn_pytorch.py:165-166 | a memory fails only for capacity 0; otherwise it is valid, of that capacity, with total priority 0 |
| ReplayMemory.Priority | bandits/rl_ddqn_pytorch.py:168-169 | `(error + 0.01) ** 0.6` is positive for every non-negative error |
| ReplayMemory.Add | bandits/rl_ddqn_pytorch.py:171-173 | the sample takes the cursor's slot with its priority; other slots keep their payload and priority; the cursor wraps; the total changes by the new minus the evicted priority and is at least the new one |
| ReplayMemory.Update | bandits/rl_ddqn_pytorch.py:188-190 | the leaf takes the new priority, other leaves, payloads and cursor stay, and the invariant holds when the leaf's slot holds a payload |
| ReplayMemory.Uniform | bandits/rl_ddqn_pytorch.py:181 | `random.uniform(a, b)` lies in `[a, b]` |
| ReplayMemory.StratumPoint | bandits/rl_ddqn_pytorch.py:177-181 | the `i`-th point lies in `[total*i/n, total*(i+1)/n]` and in `[0, total]` |
| ReplayMemory.Sample | bandits/rl_ddqn_pytorch.py:175-186 | exactly `n` pairs, each a leaf index with the payload of that leaf's slot; `n == 0` gives `[]`, since numpy's float division by zero does not raise and the loop is empty |
| ReplayMemory.SampleIsInverseCdf | bandits/rl_ddqn_pytorch.py:175-186 | the `i`-th sampled leaf is the first leaf whose cumulative priority reaches the point drawn in stratum `i` |
| ReplayMemory.TotalNonNegative | bandits/rl_ddqn_pytorch.py:59-60 | the memory's total priority is never negative |
| ReplayMemory.LeafBelowTotal | bandits/rl_ddqn_pytorch.py:59-60 | no single priority exceeds the total |
| ReplayMemory.PositivePointHitsWeight | bandits/rl_ddqn_pytorch.py:54-57 | a point above 0 never lands on a zero-priority leaf |
| ReplayMemory.PositivePointFindsPayload | bandits/rl_ddqn_pytorch.py:183-184 | over exact reals, a stratum point above 0 always samples a written slot |
| Numerics.Epsilon | bandits/rl_ddqn_pytorch.py:218 | the exploration rate lies in `(MIN_EPSILON, MAX_EPSILON]` |
| Numerics.EpsilonStartsAtMax | bandits/rl_ddqn_pytorch.py:196 | with no steps the rate is `MAX_EPSILON` |
| Numerics.EpsilonDecays | bandits/rl_ddqn_pytorch.py:218 | the rate never grows as steps accumulate |
| Numerics.LambdaPositive | bandits/rl_ddqn_pytorch.py:23 | `LAMBDA = -log(0.01)/1200` is positive, so the rate decays |
| Numerics.EpsilonAtExplorationStop | bandits/rl_ddqn_pytorch.py:20-23 | with `LAMBDA = -log(0.01)/1200`, the rate at step 1200 is exactly 0.01 |
| Learning.NewAgent | bandits/rl_ddqn_pytorch.py:198-202 | a fresh agent has 0 steps, epsilon 1, both networks on the same weights, and a valid memory of capacity 900 with total priority 0 |
| Learning.Predict | bandits/rl_ddqn_pytorch.py:151-153 | a state of the wrong length is a shape error; otherwise the network's output |
| Learning.Argmax | bandits/rl_ddqn_pytorch.py:208 | `np.argmax` returns the first position of the maximum |
| Learning.FirstMaxUnique | bandits/rl_ddqn_pytorch.py:208 | the first maximum is unique, so `Argmax` is determined |
| Learning.RandInt | bandits/rl_ddqn_pytorch.py:206 | `randint(lo, hi)` lies in `[lo, hi]` and fails exactly on an empty range |
| Learning.Act | bandits/rl_ddqn_pytorch.py:204-208 | below epsilon, a random action in `[0, action_cnt)`; otherwise the first argmax of the online prediction, with a shape error for a wrong-length state |
| Learning.FreshAgentExplores | bandits/rl_ddqn_pytorch.py:204-206 | a fresh agent always explores and returns a valid action |
| Learning.ActInRange | bandits/rl_ddqn_pytorch.py:204-208 | with one predicted value per action, `act` always returns an action in `[0, action_cnt)` |
| Learning.TargetValue | bandits/rl_ddqn_pytorch.py:242-245 | a terminal step's target is the reward; otherwise the reward plus `GAMMA` times the target network's value at the online argmax |
| Learning.TargetRow | bandits/rl_ddqn_pytorch.py:220-251 | `y` equals the online prediction except at the taken action, which holds the target; the error is `abs(old - new)`; shape errors and an out-of-range action fail; a well-shaped sample with an in-range action succeeds exactly when its target value does, failing with that value's own error otherwise |
| Learning.SyncedTargetIsMaxBackup | bandits/rl_ddqn_pytorch.py:245 | with synced networks the double-DQN target is the reward plus `GAMMA` times the maximum next value |
| Learning.TerminalTargetIsReward | bandits/rl_ddqn_pytorch.py:242-243 | a terminal sample's target entry is its reward |
| Learning.Observe | bandits/rl_ddqn_pytorch.py:210-218 | the sample is stored in the cursor slot with `Priority` of its own TD error; every other slot and its leaf are unchanged; the cursor advances with wrap-around; steps grow by exactly 1; the target is synced exactly when `steps % 60 == 0` before the increment; epsilon is recomputed and does not grow; the total becomes positive |
| Learning.Replay | bandits/rl_ddqn_pytorch.py:253-261 | an unwritten slot is a `TypeError`; otherwise the sampled leaf takes the priority of its own TD error and every other leaf keeps its priority; the online network trains on that row; steps, epsilon, target and payloads stay |
| Learning.ReplayFindsSample | bandits/rl_ddqn_pytorch.py:253-255 | over exact reals, with positive total and a draw above 0, replay never hits an unwritten slot |
| Learning.ReplayAfterObserveFindsSample | bandits/rl_ddqn_pytorch.py:210-261 | over exact reals, after any successful observe, replay with a draw above 0 never hits an unwritten slot |
| IndexBandit.NewDdqn | bandits/rl_ddqn_pytorch.py:267-273 | a new bandit has no agent, no arms and zero sizes |
| IndexBandit.InitAgents | bandits/rl_ddqn_pytorch.py:275-283 | no vectors leaves the bandit unchanged; an empty first vector is an `IndexError`; otherwise an agent sized by the first vector's row and the number of vectors |
| IndexBandit.SetArms | bandits/rl_ddqn_pytorch.py:285-288 | arms are replaced and the action count becomes their number; nothing else changes |
| IndexBandit.ConcatAppend | bandits/rl_ddqn_pytorch.py:299 | concatenation distributes over appending vector lists |
| IndexBandit.MeanPool | bandits/rl_ddqn_pytorch.py:304 | each entry of the mean times the number of vectors is that column's sum |
| IndexBandit.MeanOfCopies | bandits/rl_ddqn_pytorch.py:304 | the mean of identical vectors is that vector |
| IndexBandit.StateFor | bandits/rl_ddqn_pytorch.py:299-304 | the concatenation is used when it has `stateCnt` entries; otherwise the mean of the flattened vectors, or `ValueError` for ragged ones |
| IndexBandit.ConcatenationKept | bandits/rl_ddqn_pytorch.py:299-302 | when the flattened vectors' lengths add up to `stateCnt`, the concatenation itself is the state |
| IndexBandit.SingleVectorPassesThrough | bandits/rl_ddqn_pytorch.py:299-304 | a single context vector becomes the state unchanged |
| IndexBandit.SelectArm | bandits/rl_ddqn_pytorch.py:290-310 | at most one arm, always a valid arm index; nothing without vectors or an agent; the agent's action when it names an arm |
| IndexBandit.GreedySelectionIsArgmax | bandits/rl_ddqn_pytorch.py:306-307 | a greedy selection is the first argmax of the online prediction of the aggregated state |
| IndexBandit.RewardedCount | bandits/rl_ddqn_pytorch.py:318-320 | the number of rewarded chosen ids is at most the number chosen |
| IndexBandit.RewardedCountIsFilter | bandits/rl_ddqn_pytorch.py:318-320 | it is the number of positions whose id names an arm with a reward list |
| IndexBandit.Feed | bandits/rl_ddqn_pytorch.py:317-330 | an unrewarded id leaves the agent unchanged; a rewarded one succeeds exactly when observing the summed-reward sample and then replaying succeed, and its result is that replay's result; a failure returns the observe's or the replay's own error |
| IndexBandit.FeedAll | bandits/rl_ddqn_pytorch.py:317-330 | over all chosen ids, the steps grow by exactly the rewarded count; no ids leave the agent unchanged |
| IndexBandit.FeedAllAppend | bandits/rl_ddqn_pytorch.py:317-330 | the loop one id further: a successful prefix feeds its agent to that id's observe-then-replay (`Feed`), a failed prefix propagates its error |
| IndexBandit.UnrewardedIdsChangeNothing | bandits/rl_ddqn_pytorch.py:318-320 | ids that name no arm with a reward list leave the agent exactly as it was: nothing is stored and nothing trains |
| IndexBandit.Update | bandits/rl_ddqn_pytorch.py:312-330 | no agent or no ids leaves the bandit unchanged; otherwise the result succeeds exactly when the per-id loop `FeedAll` does, and is the bandit with its agent replaced by the loop's agent and every other field kept, or the loop's error; the agent's steps grow by the rewarded count |
| IndexBandit.FeedUnknownAction | bandits/rl_ddqn_pytorch.py:240-241 | a rewarded arm beyond the network's outputs fails with `IndexError` |
| IndexBandit.UnknownActionEscapes | bandits/rl_ddqn_pytorch.py:317-330 | the guard `arm_id < len(self.arms)` does not stop an `IndexError` when arms outnumber the network's actions |
| PlanUsage.Relation | database/sql_helper_postgres.py:50 | the relation is `Relation Name` when present and non-empty, otherwise `Alias` |
| PlanUsage.Fields | database/sql_helper_postgres.py:51-54 | both time fields are `Actual Total Time / 1000`; missing actual rows default to plan rows; other missing numbers are 0 |
| PlanUsage.IndexRecord | database/sql_helper_postgres.py:56-63 | a node yields an index record exactly when it is an Index, Index Only or Bitmap Index Scan with a non-empty index name |
| PlanUsage.TableRecord | database/sql_helper_postgres.py:64-66 | a node yields a table record exactly when it is a Seq, Bitmap Heap or Tid Scan with a non-empty relation |
| PlanUsage.CollectPlanUsage | database/sql_helper_postgres.py:48-69 | the caller's lists keep their contents and gain the records of the pre-order nodes; at most one record per node |
| PlanUsage.CollectIsPreOrderFilter | database/sql_helper_postgres.py:48-69 | the walk's records are exactly the records of the pre-order node list, in order |
| PlanUsage.CollectBounded | database/sql_helper_postgres.py:48-69 | the two lists together gain at most as many records as the plan has nodes |
| PlanUsage.IndexUsage | database/sql_helper_postgres.py:56-63 | a record is in `non_clustered_usage` if and only if some plan node is a named index scan with those values |
| PlanUsage.TableUsage | database/sql_helper_postgres.py:64-66 | a record is in `clustered_usage` if and only if some plan node is a table scan with a relation and those values |
| PlanUsage.ChildRecordsKept | database/sql_helper_postgres.py:68-69 | children are visited whatever the parent's type: every child's record reaches the parent's lists |
| IndexUseMerge.Merge | database/sql_helper_postgres.py:72-78 | empty input gives empty output; never more records than tuples |
| IndexUseMerge.MergeKeys | database/sql_helper_postgres.py:72-78 | exactly one record per distinct key, in order of first occurrence |
| IndexUseMerge.MergeSums | database/sql_helper_postgres.py:72-78 | each field is the total of that field over the key's tuples; a record is as wide as the key's narrowest tuple (`zip` truncation) |
| IndexUseMerge.UniformWidth | database/sql_helper_postgres.py:76-77 | tuples of one width merge into records of that width |
| IndexUseMerge.DedupSpec | database/sql_helper_postgres.py:74-75 | the dictionary's insertion order keeps each key once, in first-occurrence order |
| Estimates.GatherIsPreOrder | database/sql_helper_postgres.py:510-517 | `_collect_selectivity` visits exactly the pre-order node list |
| Estimates.VisitAllIsMinimum | database/sql_helper_postgres.py:511-515 | a table gets an estimate if and only if some node names it, and the estimate is the smallest `Plan Rows` among those nodes |
| Estimates.TableSelectivity | database/sql_helper_postgres.py:528 | `min(1, est / max(rows, 1))` is at most 1, equals the ratio when that is at most 1, and is non-negative for non-negative estimates |
| Estimates.Selectivity | database/sql_helper_postgres.py:497-529 | one value per table of interest, each at most 1; all 1 when EXPLAIN returns nothing; 1 for any table no node names |
| Estimates.NamedTableSelectivity | database/sql_helper_postgres.py:521-528 | a named table's selectivity is the clamped ratio of the smallest planned row count among its nodes |
| Estimates.EmptyPlanSelectsAll | database/sql_helper_postgres.py:519-528 | a root without `Plan` gives selectivity 1 to every table |
| Estimates.ColumnLength | database/sql_helper_postgres.py:336-343 | the width is the character length, else the numeric precision floor-divided by 8, else 8 |
| Estimates.DataLength | database/sql_helper_postgres.py:372-387 | a missing column raises `KeyError`; otherwise the result is the sum of the listed columns' sizes, one term per mention, a missing or zero size counting 0 |
| Estimates.CatalogWidthsAddUp | database/sql_helper_postgres.py:334-387 | over columns built by `get_columns`, both data-length variants return the sum of the listed columns' catalog widths, one term per mention |
| Estimates.DataLengthOfOneColumn | database/sql_helper_postgres.py:375-377 | one listed column contributes exactly its own (maximum) size |
| Estimates.DataLengthAppend | database/sql_helper_postgres.py:374-378 | the length of joined column lists is the sum of their lengths |
| Estimates.RepeatedColumnCountsTwice | database/sql_helper_postgres.py:383-387 | the maximum-length sum counts a repeated column each time it is listed |
| Estimates.KeyColumns | database/sql_helper_postgres.py:396 | the key columns are the listed non-primary-key columns, each once |
| Estimates.KeyColumnsIgnoreRepeats | database/sql_helper_postgres.py:396 | repeating a column, or listing a primary-key column, leaves the key columns unchanged |
| Estimates.EstimatedIndexSize | database/sql_helper_postgres.py:390-407 | `KeyError` exactly for a missing table or column; the sentinel 99999999 when the maximum length exceeds 1700; otherwise `max(rows,1) * (6 + pk + key + 2) / 2^20` |
| Estimates.SizeGrowsWithRows | database/sql_helper_postgres.py:399-402 | below the length limit, a table with more rows never gets a smaller estimate |

## Left out

- `DQNetwork` and `Brain` (PyTorch layers, the Adam optimiser, state-dict copying): the network is a pair of functions `predict` and `train` over abstract weights, and target syncing copies the online weights.
- Floating point: Python's `float64` values and the network's `float32` outputs are exact reals here, so rounding is not modelled. In particular, the repeated `tree[parent] += change` in `_propagate` can let the root drift from the sum of its children in `float64`, which exact reals never do.
- ReplayMemory.PositivePointFindsPayload: holds over exact reals only. Under `float64` drift, a point near the total can take the right branch down to a zero-priority leaf whose slot is unwritten.
- Learning.ReplayFindsSample: holds over exact reals only. Under the same drift, replay can sample an unwritten slot and subscript numpy's placeholder `0`, a `TypeError`.
- Learning.ReplayAfterObserveFindsSample: holds over exact reals only, for the same reason.
- Numerics.Epsilon: the strict lower bound `MIN_EPSILON < epsilon` relies on `exp` being positive. In `float64`, `math.exp` underflows to `0.0` below about -745, which is after about 194,000 steps, and from then on the program's epsilon equals `MIN_EPSILON`.
- `random.random`, `random.randint`, `random.uniform` and `np.random.randn`: each draw is a parameter. `math.exp`, `** 0.6` and `math.log` are parameters too, with only the facts in `Numerics.Sound` assumed.
- Logging, the GPU set-up and `workload_change_trigger`: they only write log lines.
- The class-level `SumTree.write`, `Agent.steps` and `Agent.epsilon` are per-instance fields here. The source only reads the class values as initial values, because `+=` and assignment rebind them on the instance.
- All database I/O: cursors, catalog queries, row counts, primary keys, index creation and timing. The values these produce are inputs. `create_query_drop_v3` and the rest of `database/sql_helper_postgres.py` are not part of this model. Neither are `database/sql_connection.py`, `database/sql_helper.py`, the simulation and the scripts.
- Python's negative subscripts are modelled only inside `PriorityTree.PropagateAsWritten`. Elsewhere ids are natural numbers, so a negative arm id is not representable.
- ReplayMemory.Add: requires `error >= 0`. Errors reach it only through `abs(...)`. A negative error would be an `np.float64` raised to the power 0.6, which gives `nan` with a RuntimeWarning, and that is not modelled.
- ReplayMemory.Update: requires `error >= 0`, for the same reason.
- Learning.TargetRow: assumes the network's output for a state has one entry per action. A prediction of another length would make numpy's row assignment into `y` fail. The model keeps the prediction's own length.
- Learning.Observe: syncs the target when `steps % 60 == 0` before the increment, as the code does, so the first observe syncs.
- IndexBandit.Update: on `Err` the model returns only the error. Python has already kept the effects of the earlier chosen ids (their observe and replay), and of an observe whose replay then failed, when the exception escapes. That partially updated agent is not modelled.
- IndexBandit.StateFor: models numpy's mean over ragged vectors as `ValueError`. Older numpy versions build an object array instead.
- Estimates.KeyColumns: sums the key columns in first-mention order. Python iterates a set in hash order. The sum does not depend on the order, but that is not proved for arbitrary permutations.
- Estimates.Selectivity: a JSON `null` `Plan Rows` (a `TypeError` in `float`) is not modelled. Plan fields are either present numbers or absent.
- PlanUsage.Fields: a JSON `null` numeric field is not modelled, and neither is a numeric field given as a string (which `float` would parse). Such a field counts as absent.
- IndexUseMerge.Merge: keys are strings. An empty tuple, which would fail on `index_use[0]`, cannot be represented.
- The order of leaves in `_retrieve`'s descent is the tree's left-to-right order. For a capacity that is not a power of two (900, for example) this differs from the slot order. The inverse-CDF properties are stated over the descent's own order.

## Findings

| source | as written | input that shows it | evidently intended | confidence | as-written member | corrected member |
|---|---|---|---|---|---|---|
| bandits/rl_ddqn_pytorch.py:41-45 | `_propagate` stops only when a computed parent equals 0. From the root, `(0 - 1) // 2 == -1` indexes the last node, and the recursion never reaches 0. | `SumTree(1)`, then `update(0, p)`, for example through the first `Memory(1).add`. | The update stops at the root, leaving the one-node tree holding `p`. | not executed | PriorityTree.PropagateAsWritten (exhibited by PriorityTree.CapacityOneUpdateDiverges) | PriorityTree.Update |
