/**
 The double-DQN learner (classes `Agent` and `Brain`).

 The Q-network is abstract: weights of type `W`, a forward pass `predict` on
 one state and a training step `train` on a batch. `Brain.predict` refuses a
 state whose length is not the configured state size; that is the
 `ShapeMismatch` error. The online network picks the next action, the target
 network scores it, and the target is re-synchronised every
 `UPDATE_TARGET_FREQUENCY` observations.
 */
module Learning {
  import opened Wrappers
  import opened PriorityTree
  import opened Numerics
  import ReplayMemory

  const Gamma: real := 0.99
  const BatchSize: nat := 1
  const UpdateTargetFrequency: nat := 60

  /** A sample `(state, (action, reward), reward, next_state)`; `next` is `None` for a terminal step. */
  datatype Transition = Transition(state: seq<real>, action: nat, actionReward: real, reward: real, next: Option<seq<real>>)

  /** The network as seen by the learner: a forward pass and an optimizer step on a batch. */
  datatype Network<!W> = Network(predict: (W, seq<real>) -> seq<real>, train: (W, seq<seq<real>>, seq<seq<real>>) -> W)

  datatype Agent<W> = Agent(
    stateCnt: nat,
    actionCnt: nat,
    steps: nat,
    epsilon: real,
    online: W,
    target: W,
    memory: ReplayMemory.Memory<Transition>)

  /** The agent's invariant: a healthy replay memory of the configured size and the decayed exploration rate. */
  ghost predicate Good<W>(n: Numerics, a: Agent<W>)
  {
    && Sound(n)
    && ReplayMemory.Good(a.memory)
    && a.memory.tree.capacity == ReplayMemory.MemoryCapacity
    && a.epsilon == Epsilon(n, a.steps)
  }

  /** `Agent(state_cnt, action_cnt)`: both networks start from the same weights, exploration at its maximum. */
  function NewAgent<W>(n: Numerics, stateCnt: nat, actionCnt: nat, w: W): (r: Agent<W>)
    requires Sound(n)
    ensures Good(n, r) && r.steps == 0 && r.epsilon == MaxEpsilon
    ensures r.online == r.target == w && r.stateCnt == stateCnt && r.actionCnt == actionCnt
    ensures Total(r.memory.tree) == 0.0
  {
    var m := ReplayMemory.Create<Transition>(ReplayMemory.MemoryCapacity);
    Agent(stateCnt, actionCnt, 0, MaxEpsilon, w, w, m.value)
  }

  /** `Brain.predict_one`: the forward pass, or a shape error for a state of the wrong length. */
  function Predict<W>(net: Network<W>, w: W, stateCnt: nat, x: seq<real>): (r: Result<seq<real>>)
    ensures r.Err? <==> |x| != stateCnt
    ensures r.Err? ==> r.error == ShapeMismatch
    ensures r.Ok? ==> r.value == net.predict(w, x)
  {
    if |x| != stateCnt then Err(ShapeMismatch) else Ok(net.predict(w, x))
  }

  // ---------------------------------------------------------------------------
  // Action selection
  // ---------------------------------------------------------------------------

  /** `i` is where `np.argmax` stops: a maximum with no equal or larger entry before it. */
  predicate IsFirstMax(xs: seq<real>, i: nat)
  {
    && i < |xs|
    && (forall j :: 0 <= j < |xs| ==> xs[j] <= xs[i])
    && (forall j :: 0 <= j < i ==> xs[j] < xs[i])
  }

  /** `np.argmax`: the first index of the largest entry. */
  function Argmax(xs: seq<real>): (i: nat)
    requires |xs| > 0
    ensures IsFirstMax(xs, i)
  {
    if |xs| == 1 then 0
    else
      var k := Argmax(xs[..|xs| - 1]);
      if xs[|xs| - 1] > xs[k] then |xs| - 1 else k
  }

  /** There is only one first maximum, so `Argmax` is fully determined by `IsFirstMax`. */
  lemma FirstMaxUnique(xs: seq<real>, i: nat, j: nat)
    requires IsFirstMax(xs, i) && IsFirstMax(xs, j)
    ensures i == j
  {
    assert xs[i] == xs[j];
  }

  /** `random.randint(lo, hi)` from a draw `u` of `random.random()`; an empty range is a `ValueError`. */
  function RandInt(lo: int, hi: int, u: real): (r: Result<int>)
    requires 0.0 <= u < 1.0
    ensures r.Err? <==> hi < lo
    ensures r.Err? ==> r.error == ValueError
    ensures r.Ok? ==> lo <= r.value <= hi
  {
    if hi < lo then Err(ValueError)
    else
      var width := (hi - lo + 1) as real;
      var scaled := u * width;
      ScaleBelow(width, u);
      Ok(lo + scaled.Floor)
  }

  /**
   `act(s)`: with probability `epsilon` (the draw `coin` below it) a uniformly
   random action, otherwise the online network's first best action. Only the
   greedy branch consults the network, so only it can fail on the state's shape.
   */
  function Act<W>(net: Network<W>, a: Agent<W>, s: seq<real>, coin: real, u: real): (r: Result<nat>)
    requires 0.0 <= coin < 1.0 && 0.0 <= u < 1.0
    ensures coin < a.epsilon ==> (r.Ok? <==> a.actionCnt > 0)
    ensures coin < a.epsilon && r.Ok? ==> r.value < a.actionCnt
    ensures coin >= a.epsilon ==> (r.Ok? <==> |s| == a.stateCnt && |net.predict(a.online, s)| > 0)
    ensures coin >= a.epsilon && r.Ok? ==> IsFirstMax(net.predict(a.online, s), r.value)
    ensures coin >= a.epsilon && |s| != a.stateCnt ==> r == Err(ShapeMismatch)
  {
    if coin < a.epsilon then
      var k :- RandInt(0, a.actionCnt - 1, u);
      Ok(k as nat)
    else
      var q :- Predict(net, a.online, a.stateCnt, s);
      if |q| == 0 then Err(ValueError) else Ok(Argmax(q))
  }

  /** A fresh agent always explores: every action comes from the random draw, whatever the state. */
  lemma FreshAgentExplores<W>(n: Numerics, net: Network<W>, a: Agent<W>, s: seq<real>, coin: real, u: real)
    requires Good(n, a) && a.steps == 0 && a.actionCnt > 0
    requires 0.0 <= coin < 1.0 && 0.0 <= u < 1.0
    ensures Act(net, a, s, coin, u).Ok? && Act(net, a, s, coin, u).value < a.actionCnt
  {
    EpsilonStartsAtMax(n);
  }

  /**
   With a network whose prediction has one entry per action, `act` on a
   well-shaped state always succeeds with an action in `[0, action_cnt)`,
   whichever branch the coin selects.
   */
  lemma ActInRange<W>(net: Network<W>, a: Agent<W>, s: seq<real>, coin: real, u: real)
    requires 0.0 <= coin < 1.0 && 0.0 <= u < 1.0
    requires a.actionCnt > 0 && |s| == a.stateCnt && |net.predict(a.online, s)| == a.actionCnt
    ensures Act(net, a, s, coin, u).Ok? && Act(net, a, s, coin, u).value < a.actionCnt
  {
    var r := Act(net, a, s, coin, u);
    if coin >= a.epsilon {
      assert IsFirstMax(net.predict(a.online, s), r.value);
    }
  }

  // ---------------------------------------------------------------------------
  // Targets
  // ---------------------------------------------------------------------------

  function Abs(x: real): (r: real)
    ensures r >= 0.0 && (r == x || r == -x)
  {
    if x < 0.0 then -x else x
  }

  /** `no_state`: the zero state standing in for a missing next state. */
  function Zeros(k: nat): (z: seq<real>)
    ensures |z| == k && forall i :: 0 <= i < k ==> z[i] == 0.0
  {
    seq(k, _ => 0.0)
  }

  /** The state the target is bootstrapped from. */
  function NextState<W>(a: Agent<W>, o: Transition): seq<real>
  {
    if o.next.None? then Zeros(a.stateCnt) else o.next.value
  }

  /**
   The value `t[a]` is set to: the reward of a terminal step, otherwise the
   reward plus `GAMMA` times the TARGET network's value of the action the
   ONLINE network prefers in the next state.
   */
  function TargetValue(o: Transition, qNext: seq<real>, qTarget: seq<real>): (r: Result<real>)
    ensures o.next.None? ==> r == Ok(o.reward)
    ensures o.next.Some? && |qNext| == 0 ==> r == Err(ValueError)
    ensures o.next.Some? && |qNext| > 0 ==>
              (r.Ok? <==> Argmax(qNext) < |qTarget|)
              && (r.Ok? ==> r.value == o.reward + Gamma * qTarget[Argmax(qNext)])
              && (r.Err? ==> r.error == IndexError)
  {
    if o.next.None? then Ok(o.reward)
    else if |qNext| == 0 then Err(ValueError)
    else
      var best := Argmax(qNext);
      if best >= |qTarget| then Err(IndexError) else Ok(o.reward + Gamma * qTarget[best])
  }

  /**
   `_get_targets` for one sample: the training pair `(x, y)` and the TD error.
   `y` is the online prediction for the state with only the taken action's
   entry replaced by the target value; the error is how far that entry moved.
   */
  function TargetRow<W>(net: Network<W>, a: Agent<W>, o: Transition): (r: Result<(seq<real>, seq<real>, real)>)
    ensures |o.state| != a.stateCnt ==> r == Err(ShapeMismatch)
    ensures |NextState(a, o)| != a.stateCnt ==> r == Err(ShapeMismatch)
    ensures |o.state| == a.stateCnt && |NextState(a, o)| == a.stateCnt && o.action >= |net.predict(a.online, o.state)| ==>
              r == Err(IndexError)
    ensures |o.state| == a.stateCnt && |NextState(a, o)| == a.stateCnt && o.action < |net.predict(a.online, o.state)| ==>
              var next := NextState(a, o);
              var v := TargetValue(o, net.predict(a.online, next), net.predict(a.target, next));
              && (r.Ok? <==> v.Ok?)
              && (v.Err? ==> r == Err(v.error))
    ensures r.Ok? ==>
              var p := net.predict(a.online, o.state);
              var next := NextState(a, o);
              var v := TargetValue(o, net.predict(a.online, next), net.predict(a.target, next));
              && |o.state| == a.stateCnt && o.action < |p| && v.Ok?
              && r.value.0 == o.state
              && |r.value.1| == |p|
              && r.value.1[o.action] == v.value
              && (forall j :: 0 <= j < |p| && j != o.action ==> r.value.1[j] == p[j])
              && r.value.2 == Abs(p[o.action] - v.value)
  {
    var next := NextState(a, o);
    var p :- Predict(net, a.online, a.stateCnt, o.state);
    var pNext :- Predict(net, a.online, a.stateCnt, next);
    var pTarget := net.predict(a.target, next);
    if o.action >= |p| then Err(IndexError)
    else
      var before := p[o.action];
      var v :- TargetValue(o, pNext, pTarget);
      Ok((o.state, p[o.action := v], Abs(before - v)))
  }

  /**
   With the two networks in step, the double-DQN target is the classic DQN
   target: the reward plus `GAMMA` times the best next-state value.
   */
  lemma SyncedTargetIsMaxBackup<W>(net: Network<W>, a: Agent<W>, o: Transition)
    requires a.target == a.online && o.next.Some?
    requires TargetRow(net, a, o).Ok?
    ensures var q := net.predict(a.online, o.next.value);
            var y := TargetRow(net, a, o).value.1[o.action];
            && (forall j :: 0 <= j < |q| ==> o.reward + Gamma * q[j] <= y)
            && (exists j :: 0 <= j < |q| && y == o.reward + Gamma * q[j])
  {
    var q := net.predict(a.online, o.next.value);
    var best := Argmax(q);
    forall j | 0 <= j < |q|
      ensures o.reward + Gamma * q[j] <= o.reward + Gamma * q[best]
    {
      assert q[j] <= q[best];
    }
  }

  /** A terminal sample's target is its reward, whatever the networks say. */
  lemma TerminalTargetIsReward<W>(net: Network<W>, a: Agent<W>, o: Transition)
    requires o.next.None? && TargetRow(net, a, o).Ok?
    ensures TargetRow(net, a, o).value.1[o.action] == o.reward
  {
  }

  // ---------------------------------------------------------------------------
  // Learning steps
  // ---------------------------------------------------------------------------

  /**
   `observe(sample)`: store the sample with its TD error as priority, copy the
   online weights to the target network when `steps` is a multiple of 60
   (checked BEFORE counting this observation), count it, and decay epsilon.
   */
  function Observe<W>(n: Numerics, net: Network<W>, a: Agent<W>, o: Transition): (r: Result<Agent<W>>)
    requires Good(n, a)
    ensures r.Err? <==> TargetRow(net, a, o).Err?
    ensures r.Err? ==> r.error == TargetRow(net, a, o).error
    ensures r.Ok? ==> Good(n, r.value)
    ensures r.Ok? ==> r.value.steps == a.steps + 1 && r.value.epsilon <= a.epsilon
    ensures r.Ok? ==> r.value.online == a.online && r.value.stateCnt == a.stateCnt && r.value.actionCnt == a.actionCnt
    ensures r.Ok? ==> r.value.target == (if a.steps % UpdateTargetFrequency == 0 then a.online else a.target)
    ensures r.Ok? ==> r.value.memory.tree.data[a.memory.tree.write] == Some(o)
    ensures r.Ok? ==> r.value.memory.tree.capacity == a.memory.tree.capacity
    ensures r.Ok? ==> r.value.memory.tree.tree[LeafOf(a.memory.tree, a.memory.tree.write)]
                        == ReplayMemory.Priority(n, TargetRow(net, a, o).value.2)
    ensures r.Ok? ==> forall k :: 0 <= k < a.memory.tree.capacity && k != a.memory.tree.write ==>
              && r.value.memory.tree.data[k] == a.memory.tree.data[k]
              && r.value.memory.tree.tree[LeafOf(a.memory.tree, k)] == a.memory.tree.tree[LeafOf(a.memory.tree, k)]
    ensures r.Ok? ==> r.value.memory.tree.write == Wrap(a.memory.tree.write + 1, a.memory.tree.capacity)
    ensures r.Ok? ==> Total(r.value.memory.tree) > 0.0
  {
    var row :- TargetRow(net, a, o);
    var memory := ReplayMemory.Add(n, a.memory, row.2, o);
    var target := if a.steps % UpdateTargetFrequency == 0 then a.online else a.target;
    EpsilonDecays(n, a.steps, a.steps + 1);
    Ok(a.(memory := memory, target := target, steps := a.steps + 1, epsilon := Epsilon(n, a.steps + 1)))
  }

  /** The stored sample `replay` draws: the leaf under the point `u` picks in the single stratum. */
  function Drawn<W>(a: Agent<W>, u: real): (g: (nat, real, Option<Transition>))
    requires ReplayMemory.Good(a.memory) && 0.0 <= u < 1.0
    ensures IsLeaf(a.memory.tree.tree, g.0) && g.1 == a.memory.tree.tree[g.0]
  {
    ReplayMemory.TotalNonNegative(a.memory);
    Get(a.memory.tree, ReplayMemory.StratumPoint(Total(a.memory.tree), BatchSize, 0, u))
  }

  /**
   `replay()`: draw one stored sample (the draw `u` picks the point in the
   single stratum), recompute its target and TD error, write the new priority
   back to the sampled leaf and take one training step on the online network.
   Sampling an unwritten slot subscripts numpy's placeholder `0`: `TypeError`.
   */
  function Replay<W>(n: Numerics, net: Network<W>, a: Agent<W>, u: real): (r: Result<Agent<W>>)
    requires Good(n, a) && 0.0 <= u < 1.0
    ensures r.Ok? ==> Good(n, r.value)
    ensures r.Ok? ==> r.value.steps == a.steps && r.value.epsilon == a.epsilon && r.value.target == a.target
    ensures r.Ok? ==> r.value.stateCnt == a.stateCnt && r.value.actionCnt == a.actionCnt
    ensures r.Ok? ==> r.value.memory.tree.data == a.memory.tree.data && r.value.memory.tree.write == a.memory.tree.write
    ensures var g := Drawn(a, u);
            && (g.2.None? ==> r == Err(TypeError))
            && (g.2.Some? ==>
                  && (r.Ok? <==> TargetRow(net, a, g.2.value).Ok?)
                  && (r.Ok? ==>
                        var row := TargetRow(net, a, g.2.value).value;
                        && r.value.memory.tree.tree[g.0] == ReplayMemory.Priority(n, row.2)
                        && (forall k :: IsLeaf(a.memory.tree.tree, k) && k != g.0 ==>
                              r.value.memory.tree.tree[k] == a.memory.tree.tree[k])
                        && r.value.online == net.train(a.online, [row.0], [row.1])))
  {
    ReplayMemory.TotalNonNegative(a.memory);
    var batch := ReplayMemory.Sample(a.memory, BatchSize, [u]);
    var idx := batch[0].0;
    var data := batch[0].1;
    if data.None? then Err(TypeError)
    else
      var row :- TargetRow(net, a, data.value);
      var memory := ReplayMemory.Update(n, a.memory, idx, row.2);
      Ok(a.(memory := memory, online := net.train(a.online, [row.0], [row.1])))
  }

  /**
   Over exact reals, with positive priority mass and a draw above zero,
   replay always finds a stored sample: the `TypeError` of an unwritten slot
   needs `u == 0`.
   */
  lemma ReplayFindsSample<W>(n: Numerics, net: Network<W>, a: Agent<W>, u: real)
    requires Good(n, a) && 0.0 < u < 1.0 && Total(a.memory.tree) > 0.0
    ensures Replay(n, net, a, u) != Err(TypeError)
  {
    var total := Total(a.memory.tree);
    var s := ReplayMemory.StratumPoint(total, BatchSize, 0, u);
    assert s == total * u by {
      assert total / BatchSize as real == total;
    }
    assert s > 0.0;
    ReplayMemory.PositivePointFindsPayload(a.memory, BatchSize, [u], 0);
  }

  /**
   `update` replays straight after each observation; an observation always
   leaves positive priority mass, so that replay finds a stored sample for
   every non-zero draw.
   */
  lemma ReplayAfterObserveFindsSample<W>(n: Numerics, net: Network<W>, a: Agent<W>, o: Transition, u: real)
    requires Good(n, a) && 0.0 < u < 1.0
    requires Observe(n, net, a, o).Ok?
    ensures Replay(n, net, Observe(n, net, a, o).value, u) != Err(TypeError)
  {
    ReplayFindsSample(n, net, Observe(n, net, a, o).value, u);
  }
}
