/** The episodic sequence generator and the epsilon-greedy policy. */
module SeqGen {
  import opened Tables

  /** What the environment's transition callback returns: (is_terminal, next_state, reward). */
  datatype Transition<S> = Transition(isTerminal: bool, nextState: S, reward: real)

  /** One generated record (state, is_terminal, next_state, action, reward). */
  datatype Record<S> = Record(state: S, isTerminal: bool, nextState: S, action: int, reward: real)

  /** The three callbacks a generator is built from. */
  datatype Env<!S> = Env(
    getAction: (S, int) -> int,
    getStartState: () -> S,
    getTransition: (S, int) -> Transition<S>)

  /** The stop test of `__next__`: a positive budget that the episode number has passed. */
  predicate Exhausted(episodeImax: int, episodeI: int)
  {
    episodeImax > 0 && episodeI > episodeImax
  }

  /** The record one `__next__` call produces from the current state and episode number. */
  function StepRecord<S>(env: Env<S>, state: S, episodeI: int): Record<S>
  {
    var action := env.getAction(state, episodeI);
    var tr := env.getTransition(state, action);
    Record(state, tr.isTerminal, tr.nextState, action, tr.reward)
  }

  /** The episode counter after a record: one more exactly when the record is terminal. */
  function Bump<S>(episodeI: int, r: Record<S>): int
  {
    episodeI + if r.isTerminal then 1 else 0
  }

  /** The records that up to n successive `__next__` calls return, from the given state and counter. */
  function Run<S>(env: Env<S>, episodeImax: int, state: S, episodeI: int, n: nat): seq<Record<S>>
    decreases n
  {
    if n == 0 || Exhausted(episodeImax, episodeI) then []
    else
      var r := StepRecord(env, state, episodeI);
      [r] + Run(env, episodeImax, r.nextState, Bump(episodeI, r), n - 1)
  }

  function CountTerminal<S>(rs: seq<Record<S>>): nat
  {
    if rs == [] then 0 else (if rs[0].isTerminal then 1 else 0) + CountTerminal(rs[1..])
  }

  /** The generator's state after the records rs, starting from `start`. */
  function EndState<S>(start: S, rs: seq<Record<S>>): S
  {
    if rs == [] then start else rs[|rs| - 1].nextState
  }

  lemma {:induction false} CountTerminalSnoc<S>(rs: seq<Record<S>>, r: Record<S>)
    ensures CountTerminal(rs + [r]) == CountTerminal(rs) + (if r.isTerminal then 1 else 0)
  {
    if rs != [] {
      assert (rs + [r])[1..] == rs[1..] + [r];
      CountTerminalSnoc(rs[1..], r);
    } else {
      assert [r][1..] == [];
    }
  }

  /** One more call appends exactly the record computed from the end state, unless the budget is used up. */
  lemma {:induction false} RunSnoc<S>(env: Env<S>, episodeImax: int, state: S, episodeI: int, n: nat)
    decreases n
    requires |Run(env, episodeImax, state, episodeI, n)| == n
    ensures var rs := Run(env, episodeImax, state, episodeI, n);
            var e := episodeI + CountTerminal(rs);
            Run(env, episodeImax, state, episodeI, n + 1)
              == rs + (if Exhausted(episodeImax, e) then [] else [StepRecord(env, EndState(state, rs), e)])
  {
    if n > 0 {
      var r := StepRecord(env, state, episodeI);
      var rest := Run(env, episodeImax, r.nextState, Bump(episodeI, r), n - 1);
      RunSnoc(env, episodeImax, r.nextState, Bump(episodeI, r), n - 1);
      RunSnocCons(r, rest, state, episodeI);
      var e := Bump(episodeI, r) + CountTerminal(rest);
      var x := if Exhausted(episodeImax, e) then [] else [StepRecord(env, EndState(r.nextState, rest), e)];
      assert Run(env, episodeImax, state, episodeI, n + 1)
             == [r] + Run(env, episodeImax, r.nextState, Bump(episodeI, r), n);
      assert [r] + (rest + x) == ([r] + rest) + x;
    }
  }

  /** The counter and end state after [r] + rest, from those after rest. */
  lemma RunSnocCons<S>(r: Record<S>, rest: seq<Record<S>>, state: S, episodeI: int)
    ensures episodeI + CountTerminal([r] + rest) == Bump(episodeI, r) + CountTerminal(rest)
    ensures EndState(state, [r] + rest) == EndState(r.nextState, rest)
  {
    assert ([r] + rest)[1..] == rest;
  }

  /** Consecutive records chain: each starts in the state the previous one ended in. */
  lemma {:induction false} RunChains<S>(env: Env<S>, episodeImax: int, state: S, episodeI: int, n: nat)
    decreases n
    ensures var rs := Run(env, episodeImax, state, episodeI, n);
            && |rs| <= n
            && (rs != [] ==> rs[0].state == state)
            && forall i :: 0 <= i < |rs| - 1 ==> rs[i + 1].state == rs[i].nextState
  {
    if n > 0 && !Exhausted(episodeImax, episodeI) {
      var r := StepRecord(env, state, episodeI);
      RunChains(env, episodeImax, r.nextState, Bump(episodeI, r), n - 1);
    }
  }

  /** Record r is what the callbacks give in its own state for episode number e. */
  ghost predicate Follows<S>(env: Env<S>, r: Record<S>, e: int)
  {
    var tr := env.getTransition(r.state, r.action);
    && r.action == env.getAction(r.state, e)
    && r.isTerminal == tr.isTerminal
    && r.nextState == tr.nextState
    && r.reward == tr.reward
  }

  /** Every record of rs follows the callbacks, for the episode number current when it was produced. */
  ghost predicate AllFollow<S>(env: Env<S>, rs: seq<Record<S>>, episodeI: int)
  {
    forall i :: 0 <= i < |rs| ==> Follows(env, rs[i], episodeI + CountTerminal(rs[..i]))
  }

  /** Each record's action is getAction of its own state and of the episode number current at that call,
      and the rest of the record is getTransition of that state and action. */
  lemma {:induction false} RunCallbacks<S>(env: Env<S>, episodeImax: int, state: S, episodeI: int, n: nat)
    decreases n
    ensures AllFollow(env, Run(env, episodeImax, state, episodeI, n), episodeI)
  {
    if n > 0 && !Exhausted(episodeImax, episodeI) {
      var r := StepRecord(env, state, episodeI);
      var rest := Run(env, episodeImax, r.nextState, Bump(episodeI, r), n - 1);
      RunCallbacks(env, episodeImax, r.nextState, Bump(episodeI, r), n - 1);
      assert Run(env, episodeImax, state, episodeI, n) == [r] + rest;
      AllFollowCons(env, r, rest, episodeI);
    }
  }

  /** A record that follows the callbacks, put in front of records that follow them from the next counter. */
  lemma AllFollowCons<S>(env: Env<S>, r: Record<S>, rest: seq<Record<S>>, episodeI: int)
    requires Follows(env, r, episodeI) && AllFollow(env, rest, Bump(episodeI, r))
    ensures AllFollow(env, [r] + rest, episodeI)
  {
    var rs := [r] + rest;
    assert rs[..0] == [] && rs[0] == r;
    forall i | 1 <= i < |rs|
      ensures Follows(env, rs[i], episodeI + CountTerminal(rs[..i]))
    {
      ConsPrefix(r, rest, i);
    }
  }

  /** Position i of [r] + rest is position i - 1 of rest, after one more count for r. */
  lemma ConsPrefix<S>(r: Record<S>, rest: seq<Record<S>>, i: int)
    requires 1 <= i <= |rest|
    ensures ([r] + rest)[i] == rest[i - 1]
    ensures CountTerminal(([r] + rest)[..i]) == (if r.isTerminal then 1 else 0) + CountTerminal(rest[..i - 1])
  {
    var pre := ([r] + rest)[..i];
    assert pre[0] == r && pre[1..] == rest[..i - 1];
  }

  /** With a positive budget, every record is produced while the episode number is within the budget. */
  lemma {:induction false} RunWithinBudget<S>(env: Env<S>, episodeImax: int, state: S, episodeI: int, n: nat)
    decreases n
    requires episodeImax > 0 && episodeI <= episodeImax + 1
    ensures var rs := Run(env, episodeImax, state, episodeI, n);
            && episodeI + CountTerminal(rs) <= episodeImax + 1
            && forall i :: 0 <= i < |rs| ==> episodeI + CountTerminal(rs[..i]) <= episodeImax
  {
    if n > 0 && !Exhausted(episodeImax, episodeI) {
      var r := StepRecord(env, state, episodeI);
      var rest := Run(env, episodeImax, r.nextState, Bump(episodeI, r), n - 1);
      RunWithinBudget(env, episodeImax, r.nextState, Bump(episodeI, r), n - 1);
      var rs := [r] + rest;
      assert rs[1..] == rest;
      forall i | 0 <= i < |rs|
        ensures episodeI + CountTerminal(rs[..i]) <= episodeImax
      {
        if i > 0 {
          assert rs[..i][1..] == rest[..i - 1];
        }
      }
    }
  }

  /** The run ends before n calls only because the budget is used up; without a budget it never ends. */
  lemma {:induction false} RunStopsOnlyWhenExhausted<S>(env: Env<S>, episodeImax: int, state: S, episodeI: int, n: nat)
    decreases n
    ensures var rs := Run(env, episodeImax, state, episodeI, n);
            && (|rs| < n ==> Exhausted(episodeImax, episodeI + CountTerminal(rs)))
            && (episodeImax <= 0 ==> |rs| == n)
  {
    if n > 0 && !Exhausted(episodeImax, episodeI) {
      var r := StepRecord(env, state, episodeI);
      var rest := Run(env, episodeImax, r.nextState, Bump(episodeI, r), n - 1);
      RunStopsOnlyWhenExhausted(env, episodeImax, r.nextState, Bump(episodeI, r), n - 1);
      assert ([r] + rest)[1..] == rest;
    }
  }

  /** A generator run from `__iter__` with budget k > 0 yields at most k terminal records, nothing after
      the k-th, and exactly k of them whenever the sequence ends before n calls. */
  lemma EpisodeBudget<S>(env: Env<S>, k: int, n: nat)
    requires k > 0
    ensures var rs := Run(env, k, env.getStartState(), 1, n);
            && CountTerminal(rs) <= k
            && (forall i :: 0 <= i < |rs| ==> CountTerminal(rs[..i]) < k)
            && (|rs| < n ==> CountTerminal(rs) == k)
  {
    RunWithinBudget(env, k, env.getStartState(), 1, n);
    RunStopsOnlyWhenExhausted(env, k, env.getStartState(), 1, n);
  }

  /** SequenceGenerator: pulls one record per `Next`, counting episodes; `trace` is the ghost history of
      the records returned since the last `Iter`. */
  class SequenceGenerator<S(0)> {
    const episodeImax: int
    const env: Env<S>
    var episodeI: int
    var state: S
    ghost var started: bool
    ghost var trace: seq<Record<S>>

    ghost predicate Valid()
      reads this
    {
      started ==>
        && trace == Run(env, episodeImax, env.getStartState(), 1, |trace|)
        && episodeI == 1 + CountTerminal(trace)
        && state == EndState(env.getStartState(), trace)
    }

    constructor (getAction: (S, int) -> int, getStartState: () -> S,
                 getTransition: (S, int) -> Transition<S>, episodeImax: int)
      ensures Valid() && !started
      ensures this.episodeImax == episodeImax
      ensures env == Env(getAction, getStartState, getTransition)
    {
      this.episodeImax := episodeImax;
      env := Env(getAction, getStartState, getTransition);
      started := false;
      trace := [];
    }

    /** `__iter__`: restart at episode 1 from a fresh start state. */
    method Iter()
      modifies this
      ensures Valid() && started
      ensures episodeI == 1 && state == env.getStartState() && trace == []
    {
      episodeI := 1;
      state := env.getStartState();
      started := true;
      trace := [];
    }

    /** `__next__`: None stands for StopIteration. */
    method Next() returns (r: Option<Record<S>>)
      requires Valid() && started
      modifies this
      ensures Valid() && started
      ensures r.None? <==> Exhausted(episodeImax, old(episodeI))
      ensures r.None? ==> state == old(state) && episodeI == old(episodeI) && trace == old(trace)
      ensures r.Some? ==>
        var tr := env.getTransition(old(state), r.value.action);
        && r.value.state == old(state)
        && r.value.action == env.getAction(old(state), old(episodeI))
        && r.value.isTerminal == tr.isTerminal
        && r.value.nextState == tr.nextState
        && r.value.reward == tr.reward
        && state == r.value.nextState
        && episodeI == old(episodeI) + (if r.value.isTerminal then 1 else 0)
        && trace == old(trace) + [r.value]
    {
      if episodeImax > 0 && episodeI > episodeImax {
        return None;
      }
      var action := env.getAction(state, episodeI);
      var keepState := state;
      var tr := env.getTransition(keepState, action);
      state := tr.nextState;
      episodeI := episodeI + if tr.isTerminal then 1 else 0;
      var rec := Record(keepState, tr.isTerminal, state, action, tr.reward);
      RunSnoc(env, episodeImax, env.getStartState(), 1, |trace|);
      CountTerminalSnoc(trace, rec);
      trace := trace + [rec];
      r := Some(rec);
    }
  }

  /** `EpsilonGreedyPolicy.__call__` with its two random draws as inputs: u stands for
      `np.random.rand(1)[0]` and k for `np.random.randint(0, len(q))`. The episode number is accepted, as the
      generator passes it, and not read. */
  function EpsilonGreedy<S>(Q: Table<S>, epsilon: real, state: S, episodeI: int, u: real, k: int): (a: int)
    requires state in Q && 0 <= k < |Q[state]|
    ensures 0 <= a < |Q[state]|
    ensures u < epsilon ==> a == k
    ensures u >= epsilon ==> IsFirstArgmax(Q[state], a)
  {
    if u < epsilon then k
    else
      FirstArgmaxIsFirst(Q[state]);
      FirstArgmax(Q[state])
  }
}
