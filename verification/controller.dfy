/**
 The index-selection bandit (class `DDQN`): it turns the context vectors of
 the candidate indexes into one state, asks the agent for an arm, and feeds
 the rewards of the chosen arms back as observations followed by replays.
 */
module IndexBandit {
  import opened Wrappers
  import opened Sums
  import opened Numerics
  import opened Learning

  /** A candidate index; only its name is read. */
  datatype Arm = Arm(indexName: string)

  /** One context vector, a numpy matrix given by its rows (shape `(1, state_size)` in practice). */
  type ContextVector = seq<seq<real>>

  datatype Ddqn<W> = Ddqn(contextSize: nat, agent: Option<Agent<W>>, arms: seq<Arm>, stateCnt: nat, actionCnt: nat)

  /** The random inputs one rewarded arm consumes: two `randn` states and one replay draw. */
  datatype Draw = Draw(state: seq<real>, next: seq<real>, u: real)

  /** An agent, once created, is healthy and sized like the bandit's state. */
  ghost predicate Good<W>(n: Numerics, d: Ddqn<W>)
  {
    Sound(n) && (d.agent.Some? ==> Learning.Good(n, d.agent.value) && d.agent.value.stateCnt == d.stateCnt)
  }

  /** `DDQN(context_size, oracle)`: no agent and no arms yet. */
  function NewDdqn<W>(contextSize: nat): (d: Ddqn<W>)
    ensures d.agent.None? && d.arms == [] && d.stateCnt == 0 && d.actionCnt == 0
    ensures forall n: Numerics :: Sound(n) ==> Good(n, d)
  {
    Ddqn(contextSize, None, [], 0, 0)
  }

  // ---------------------------------------------------------------------------
  // Set-up
  // ---------------------------------------------------------------------------

  /**
   `init_agents(context_vectors)`: nothing happens for an empty list; otherwise
   the state size is the length of the first row of the first vector, the
   action count is the number of vectors, and a fresh agent replaces any old one.
   */
  function InitAgents<W>(n: Numerics, d: Ddqn<W>, cvs: seq<ContextVector>, w: W): (r: Result<Ddqn<W>>)
    requires Good(n, d)
    ensures |cvs| == 0 ==> r == Ok(d)
    ensures |cvs| > 0 && |cvs[0]| == 0 ==> r == Err(IndexError)
    ensures |cvs| > 0 && |cvs[0]| > 0 ==> r.Ok? && r.value.agent.Some?
    ensures r.Ok? ==> Good(n, r.value) && r.value.arms == d.arms && r.value.contextSize == d.contextSize
    ensures r.Ok? && |cvs| > 0 ==>
              var a := r.value.agent.value;
              && a.stateCnt == r.value.stateCnt == |cvs[0][0]|
              && a.actionCnt == r.value.actionCnt == |cvs|
              && a.steps == 0 && a.online == a.target == w
  {
    if |cvs| == 0 then Ok(d)
    else if |cvs[0]| == 0 then Err(IndexError)
    else
      var stateCnt := |cvs[0][0]|;
      var actionCnt := |cvs|;
      Ok(d.(stateCnt := stateCnt, actionCnt := actionCnt, agent := Some(NewAgent(n, stateCnt, actionCnt, w))))
  }

  /**
   `set_arms(arms)`: replaces the arms and the bandit's action count. The
   agent keeps the action count it was built with.
   */
  function SetArms<W>(d: Ddqn<W>, arms: seq<Arm>): (r: Ddqn<W>)
    ensures r.arms == arms && r.actionCnt == |arms|
    ensures r.agent == d.agent && r.stateCnt == d.stateCnt && r.contextSize == d.contextSize
  {
    d.(arms := arms, actionCnt := |arms|)
  }

  // ---------------------------------------------------------------------------
  // State aggregation
  // ---------------------------------------------------------------------------

  /** `np.concatenate`: the rows one after another. */
  function Concat(rows: seq<seq<real>>): (r: seq<real>)
  {
    if |rows| == 0 then [] else Concat(rows[..|rows| - 1]) + rows[|rows| - 1]
  }

  /** Concatenation is a monoid homomorphism: joining lists joins their concatenations. */
  lemma {:induction false} ConcatAppend(a: seq<seq<real>>, b: seq<seq<real>>)
    ensures Concat(a + b) == Concat(a) + Concat(b)
    decreases |b|
  {
    if |b| == 0 {
      assert a + b == a;
    } else {
      assert (a + b)[..|a + b| - 1] == a + b[..|b| - 1];
      ConcatAppend(a, b[..|b| - 1]);
    }
  }

  /** The lengths of the rows add up to the length of their concatenation. */
  lemma {:induction false} ConcatLength(rows: seq<seq<real>>)
    ensures |Concat(rows)| == SumInt(seq(|rows|, i requires 0 <= i < |rows| => |rows[i]|))
    decreases |rows|
  {
    if |rows| > 0 {
      var lengths := seq(|rows|, i requires 0 <= i < |rows| => |rows[i]|);
      assert lengths[..|rows| - 1] == seq(|rows| - 1, i requires 0 <= i < |rows| - 1 => |rows[..|rows| - 1][i]|);
      ConcatLength(rows[..|rows| - 1]);
    }
  }

  /** `[cv.flatten() for cv in context_vectors]`. */
  function Flats(cvs: seq<ContextVector>): (fs: seq<seq<real>>)
    ensures |fs| == |cvs| && forall i :: 0 <= i < |cvs| ==> fs[i] == Concat(cvs[i])
  {
    seq(|cvs|, i requires 0 <= i < |cvs| => Concat(cvs[i]))
  }

  /** numpy builds a matrix only from rows of one length; ragged rows are a `ValueError`. */
  predicate SameLength(vs: seq<seq<real>>)
  {
    forall i :: 0 <= i < |vs| ==> |vs[i]| == |vs[0]|
  }

  /** Column `j` of a matrix given by rows. */
  function Column(vs: seq<seq<real>>, j: nat): (c: seq<real>)
    requires forall i :: 0 <= i < |vs| ==> j < |vs[i]|
    ensures |c| == |vs| && forall i :: 0 <= i < |vs| ==> c[i] == vs[i][j]
  {
    seq(|vs|, i requires 0 <= i < |vs| => vs[i][j])
  }

  /** `.mean(axis=0)`: the average of each column. */
  function MeanPool(vs: seq<seq<real>>): (m: seq<real>)
    requires |vs| > 0 && SameLength(vs)
    ensures |m| == |vs[0]|
    ensures forall j :: 0 <= j < |m| ==> m[j] * |vs| as real == Sum(Column(vs, j))
  {
    seq(|vs[0]|, j requires 0 <= j < |vs[0]| => Sum(Column(vs, j)) / |vs| as real)
  }

  /** Pooling copies of one vector gives that vector back. */
  lemma MeanOfCopies(vs: seq<seq<real>>, v: seq<real>)
    requires |vs| > 0 && forall i :: 0 <= i < |vs| ==> vs[i] == v
    ensures SameLength(vs) && MeanPool(vs) == v
  {
    var m := MeanPool(vs);
    forall j | 0 <= j < |v|
      ensures m[j] == v[j]
    {
      SumCopies(Column(vs, j), v[j]);
    }
  }

  /**
   The state `select_arm` feeds the agent: all vectors flattened and joined
   when that has the configured length, otherwise the column means of the
   flattened vectors, which numpy refuses when their lengths differ.
   */
  function StateFor(cvs: seq<ContextVector>, stateCnt: nat): (r: Result<seq<real>>)
    requires |cvs| > 0
    ensures |Concat(Flats(cvs))| == stateCnt ==> r == Ok(Concat(Flats(cvs)))
    ensures |Concat(Flats(cvs))| != stateCnt ==>
              (r.Err? <==> !SameLength(Flats(cvs)))
              && (r.Err? ==> r.error == ValueError)
              && (r.Ok? ==> r.value == MeanPool(Flats(cvs)))
  {
    var flats := Flats(cvs);
    var whole := Concat(flats);
    if |whole| == stateCnt then Ok(whole)
    else if !SameLength(flats) then Err(ValueError)
    else Ok(MeanPool(flats))
  }

  /** A single context vector reaches the agent flattened, whatever its length. */
  lemma SingleVectorPassesThrough(cv: ContextVector, stateCnt: nat)
    ensures StateFor([cv], stateCnt) == Ok(Concat(cv))
  {
    var flats := Flats([cv]);
    assert flats == [Concat(cv)];
    assert Concat(flats) == Concat(cv) by {
      assert flats[..0] == [];
      assert Concat(flats) == Concat(flats[..0]) + flats[0];
    }
    MeanOfCopies(flats, Concat(cv));
  }

  /**
   The concatenation is kept exactly when the flattened vectors' lengths add
   up to the configured state size.
   */
  lemma ConcatenationKept(cvs: seq<ContextVector>, stateCnt: nat)
    requires |cvs| > 0
    requires SumInt(seq(|cvs|, i requires 0 <= i < |cvs| => |Flats(cvs)[i]|)) == stateCnt
    ensures StateFor(cvs, stateCnt) == Ok(Concat(Flats(cvs)))
  {
    ConcatLength(Flats(cvs));
  }

  // ---------------------------------------------------------------------------
  // Arm selection
  // ---------------------------------------------------------------------------

  /**
   `select_arm(context_vectors, t)`: at most one arm, always a valid arm
   index; nothing without vectors or an agent, and nothing when aggregation
   or the agent fails (the source swallows the exception) or the agent names
   an action beyond the arms.
   */
  function SelectArm<W>(net: Network<W>, d: Ddqn<W>, cvs: seq<ContextVector>, coin: real, u: real): (r: seq<nat>)
    requires 0.0 <= coin < 1.0 && 0.0 <= u < 1.0
    ensures |r| <= 1 && forall i :: 0 <= i < |r| ==> r[i] < |d.arms|
    ensures |cvs| == 0 || d.agent.None? ==> r == []
    ensures |r| == 1 ==>
              var state := StateFor(cvs, d.stateCnt);
              && state.Ok?
              && Act(net, d.agent.value, state.value, coin, u) == Ok(r[0])
    ensures |cvs| > 0 && d.agent.Some? && StateFor(cvs, d.stateCnt).Ok? ==>
              var act := Act(net, d.agent.value, StateFor(cvs, d.stateCnt).value, coin, u);
              (r == [] <==> act.Err? || act.value >= |d.arms|)
  {
    if |cvs| == 0 || d.agent.None? then []
    else
      match StateFor(cvs, d.stateCnt)
      case Err(_) => []
      case Ok(state) =>
        match Act(net, d.agent.value, state, coin, u)
        case Err(_) => []
        case Ok(action) => if action < |d.arms| then [action] else []
  }

  /**
   In the greedy branch the selected arm is the online network's first best
   action for the aggregated state.
   */
  lemma GreedySelectionIsArgmax<W>(net: Network<W>, d: Ddqn<W>, cvs: seq<ContextVector>, coin: real, u: real)
    requires 0.0 <= coin < 1.0 && 0.0 <= u < 1.0
    requires d.agent.Some? && coin >= d.agent.value.epsilon
    requires |SelectArm(net, d, cvs, coin, u)| == 1
    ensures IsFirstMax(net.predict(d.agent.value.online, StateFor(cvs, d.stateCnt).value), SelectArm(net, d, cvs, coin, u)[0])
  {
  }

  // ---------------------------------------------------------------------------
  // Feedback
  // ---------------------------------------------------------------------------

  /** Chosen arm `id` earns an observation: it names an arm and that arm's name has a reward list. */
  predicate Rewarded(arms: seq<Arm>, rewards: map<string, seq<real>>, id: nat)
  {
    id < |arms| && arms[id].indexName in rewards
  }

  /** How many of the chosen ids earn an observation. */
  function RewardedCount(arms: seq<Arm>, rewards: map<string, seq<real>>, chosen: seq<nat>): (c: nat)
    ensures c <= |chosen|
  {
    if |chosen| == 0 then 0
    else RewardedCount(arms, rewards, chosen[..|chosen| - 1]) + (if Rewarded(arms, rewards, chosen[|chosen| - 1]) then 1 else 0)
  }

  /** The random states fit the configured state size and the replay draws lie in `[0, 1)`. */
  predicate DrawsFit(stateCnt: nat, draws: seq<Draw>)
  {
    forall i :: 0 <= i < |draws| ==>
      |draws[i].state| == stateCnt && |draws[i].next| == stateCnt && 0.0 <= draws[i].u < 1.0
  }

  /**
   One chosen id: a rewarded arm becomes the sample
   `(state, (id, reward), reward, next_state)` with the summed reward list,
   observed and then replayed; any other id is skipped.
   */
  function Feed<W>(n: Numerics, net: Network<W>, a: Agent<W>, arms: seq<Arm>, rewards: map<string, seq<real>>, id: nat, draw: Draw): (r: Result<Agent<W>>)
    requires Learning.Good(n, a) && 0.0 <= draw.u < 1.0
    ensures !Rewarded(arms, rewards, id) ==> r == Ok(a)
    ensures r.Ok? ==> Learning.Good(n, r.value) && r.value.stateCnt == a.stateCnt && r.value.actionCnt == a.actionCnt
    ensures r.Ok? ==> r.value.steps == a.steps + (if Rewarded(arms, rewards, id) then 1 else 0)
    ensures Rewarded(arms, rewards, id) ==>
              var reward := Sum(rewards[arms[id].indexName]);
              var o := Transition(draw.state, id, reward, reward, Some(draw.next));
              && (r.Ok? <==> Observe(n, net, a, o).Ok? && Replay(n, net, Observe(n, net, a, o).value, draw.u).Ok?)
              && (r.Ok? ==> r == Replay(n, net, Observe(n, net, a, o).value, draw.u))
              && (Observe(n, net, a, o).Err? ==> r == Err(Observe(n, net, a, o).error))
              && (Observe(n, net, a, o).Ok? && Replay(n, net, Observe(n, net, a, o).value, draw.u).Err? ==>
                    r == Err(Replay(n, net, Observe(n, net, a, o).value, draw.u).error))
  {
    if Rewarded(arms, rewards, id) then
      var reward := Sum(rewards[arms[id].indexName]);
      var o := Transition(draw.state, id, reward, reward, Some(draw.next));
      var observed :- Observe(n, net, a, o);
      Replay(n, net, observed, draw.u)
    else Ok(a)
  }

  /** The chosen ids in order, each with its draws; the first failure ends the loop. */
  function FeedAll<W>(n: Numerics, net: Network<W>, a: Agent<W>, arms: seq<Arm>, rewards: map<string, seq<real>>, chosen: seq<nat>, draws: seq<Draw>): (r: Result<Agent<W>>)
    requires Learning.Good(n, a) && |draws| == |chosen| && DrawsFit(a.stateCnt, draws)
    ensures r.Ok? ==> Learning.Good(n, r.value) && r.value.stateCnt == a.stateCnt && r.value.actionCnt == a.actionCnt
    ensures r.Ok? ==> r.value.steps == a.steps + RewardedCount(arms, rewards, chosen)
    ensures |chosen| == 0 ==> r == Ok(a)
    decreases |chosen|
  {
    if |chosen| == 0 then Ok(a)
    else
      var k := |chosen| - 1;
      var before :- FeedAll(n, net, a, arms, rewards, chosen[..k], draws[..k]);
      Feed(n, net, before, arms, rewards, chosen[k], draws[k])
  }

  /**
   `update(chosen_arm_ids, arm_rewards)`: nothing without an agent or chosen
   ids; otherwise every rewarded id is observed and replayed once, so the
   agent's step count grows by exactly the number of rewarded ids. Errors
   raised by the agent are not caught.
   */
  function Update<W>(n: Numerics, net: Network<W>, d: Ddqn<W>, chosen: seq<nat>, rewards: map<string, seq<real>>, draws: seq<Draw>): (r: Result<Ddqn<W>>)
    requires Good(n, d) && |draws| == |chosen| && DrawsFit(d.stateCnt, draws)
    ensures d.agent.None? || |chosen| == 0 ==> r == Ok(d)
    ensures r.Ok? ==> Good(n, r.value) && r.value.arms == d.arms && r.value.stateCnt == d.stateCnt
    ensures r.Ok? ==> r.value.agent.Some? == d.agent.Some?
    ensures r.Ok? && d.agent.Some? ==> r.value.agent.value.steps == d.agent.value.steps + RewardedCount(d.arms, rewards, chosen)
    ensures d.agent.Some? && |chosen| > 0 ==>
              var fed := FeedAll(n, net, d.agent.value, d.arms, rewards, chosen, draws);
              && (r.Ok? <==> fed.Ok?)
              && (r.Ok? ==> r.value == d.(agent := Some(fed.value)))
              && (r.Err? ==> r.error == fed.error)
  {
    if d.agent.None? || |chosen| == 0 then Ok(d)
    else
      var a :- FeedAll(n, net, d.agent.value, d.arms, rewards, chosen, draws);
      Ok(d.(agent := Some(a)))
  }

  /**
   The loop of `update` one id further: a successful prefix hands its agent to
   the next id's observe-then-replay, and a failed prefix stops the loop with
   its error.
   */
  lemma FeedAllAppend<W>(n: Numerics, net: Network<W>, a: Agent<W>, arms: seq<Arm>, rewards: map<string, seq<real>>, chosen: seq<nat>, draws: seq<Draw>, id: nat, draw: Draw)
    requires Learning.Good(n, a) && |draws| == |chosen| && DrawsFit(a.stateCnt, draws + [draw])
    ensures DrawsFit(a.stateCnt, draws)
    ensures var before := FeedAll(n, net, a, arms, rewards, chosen, draws);
            var after := FeedAll(n, net, a, arms, rewards, chosen + [id], draws + [draw]);
            && (before.Err? ==> after == Err(before.error))
            && (before.Ok? ==> after == Feed(n, net, before.value, arms, rewards, id, draw))
  {
    assert forall i :: 0 <= i < |draws| ==> draws[i] == (draws + [draw])[i];
    assert (chosen + [id])[..|chosen|] == chosen;
    assert (draws + [draw])[..|draws|] == draws;
    assert (draws + [draw])[|draws|] == draw;
  }

  /** Ids that earn no observation leave the agent exactly as it was: nothing is stored and nothing trains. */
  lemma {:induction false} UnrewardedIdsChangeNothing<W>(n: Numerics, net: Network<W>, a: Agent<W>, arms: seq<Arm>, rewards: map<string, seq<real>>, chosen: seq<nat>, draws: seq<Draw>)
    requires Learning.Good(n, a) && |draws| == |chosen| && DrawsFit(a.stateCnt, draws)
    requires forall i :: 0 <= i < |chosen| ==> !Rewarded(arms, rewards, chosen[i])
    ensures FeedAll(n, net, a, arms, rewards, chosen, draws) == Ok(a)
    decreases |chosen|
  {
    if |chosen| > 0 {
      var k := |chosen| - 1;
      UnrewardedIdsChangeNothing(n, net, a, arms, rewards, chosen[..k], draws[..k]);
    }
  }

  /** Only ids that name an arm with a reward list count; the rest are skipped silently. */
  lemma {:induction false} RewardedCountIsFilter(arms: seq<Arm>, rewards: map<string, seq<real>>, chosen: seq<nat>)
    ensures RewardedCount(arms, rewards, chosen) == |set i | 0 <= i < |chosen| && Rewarded(arms, rewards, chosen[i])|
    decreases |chosen|
  {
    if |chosen| > 0 {
      var k := |chosen| - 1;
      var prefix := chosen[..k];
      RewardedCountIsFilter(arms, rewards, prefix);
      var before := set i | 0 <= i < k && Rewarded(arms, rewards, prefix[i]);
      var after := set i | 0 <= i < |chosen| && Rewarded(arms, rewards, chosen[i]);
      assert before == set i | 0 <= i < k && Rewarded(arms, rewards, chosen[i]);
      if Rewarded(arms, rewards, chosen[k]) {
        assert after == before + {k};
      } else {
        assert after == before;
      }
    }
  }

  /** An id beyond the network's outputs fails its observation with `IndexError`. */
  lemma FeedUnknownAction<W>(n: Numerics, net: Network<W>, a: Agent<W>, arms: seq<Arm>, rewards: map<string, seq<real>>, id: nat, draw: Draw)
    requires Learning.Good(n, a) && |draw.state| == |draw.next| == a.stateCnt && 0.0 <= draw.u < 1.0
    requires Rewarded(arms, rewards, id) && id >= |net.predict(a.online, draw.state)|
    ensures Feed(n, net, a, arms, rewards, id, draw) == Err(IndexError)
  {
    var reward := Sum(rewards[arms[id].indexName]);
    var o := Transition(draw.state, id, reward, reward, Some(draw.next));
    assert NextState(a, o) == draw.next;
    assert TargetRow(net, a, o) == Err(IndexError);
  }

  /**
   An arm chosen after `set_arms` grew the arm list beyond the agent's action
   count is not caught: its observation fails with `IndexError` out of `update`.
   */
  lemma UnknownActionEscapes<W>(n: Numerics, net: Network<W>, d: Ddqn<W>, id: nat, rewards: map<string, seq<real>>, draw: Draw)
    requires Good(n, d) && d.agent.Some? && DrawsFit(d.stateCnt, [draw])
    requires Rewarded(d.arms, rewards, id) && id >= |net.predict(d.agent.value.online, draw.state)|
    ensures Update(n, net, d, [id], rewards, [draw]) == Err(IndexError)
  {
    var a := d.agent.value;
    assert [draw][0] == draw;
    FeedUnknownAction(n, net, a, d.arms, rewards, id, draw);
    assert [id][..0] == [] && [draw][..0] == [];
    assert FeedAll(n, net, a, d.arms, rewards, [], []) == Ok(a);
    assert FeedAll(n, net, a, d.arms, rewards, [id], [draw]) == Feed(n, net, a, d.arms, rewards, id, draw);
  }
}
