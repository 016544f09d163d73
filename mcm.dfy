/** Monte Carlo control: the off-policy (importance-sampling) updater, the two on-policy updaters and
    the episode-by-episode driver. */
module MCM {
  import opened Tables
  import opened SeqGen

  /** One episode entry (state, action, reward). */
  datatype Step<S> = Step(state: S, action: int, reward: real)

  /** `G = gamma*G + reward`: one more step of the backward return accumulation. */
  function Discount(gamma: real, G: real, reward: real): real
  {
    gamma * G + reward
  }

  /** The discounted return from step j on: r_j + gamma * r_{j+1} + gamma^2 * r_{j+2} + ... */
  function Return<S>(ep: seq<Step<S>>, j: int, gamma: real): real
    requires 0 <= j <= |ep|
    decreases |ep| - j
  {
    if j == |ep| then 0.0 else Discount(gamma, Return(ep, j + 1, gamma), ep[j].reward)
  }

  /** Every step's (state, action) indexes the table. */
  predicate Fits<S>(ep: seq<Step<S>>, t: Table<S>)
  {
    forall i :: 0 <= i < |ep| ==> Indexes(t, ep[i].state, ep[i].action)
  }

  predicate CountsNonNegative<S>(ep: seq<Step<S>>, C: Table<S>)
  {
    forall i :: 0 <= i < |ep| ==> Get(C, ep[i].state, ep[i].action) >= 0.0
  }

  ghost predicate SamePair<S>(x: Step<S>, s: S, a: int)
  {
    x.state == s && x.action == a
  }

  /** No step from index lo on uses the pair (s, a). */
  ghost predicate Untouched<S>(ep: seq<Step<S>>, lo: int, s: S, a: int)
  {
    forall k :: 0 <= lo <= k < |ep| ==> !SamePair(ep[k], s, a)
  }

  /** Writing an entry of one row leaves every other row, and so its greedy action, as it was. */
  lemma PutOtherRow<S>(t: Table<S>, s: S, a: int, v: real, s': S)
    requires s' != s
    ensures (s' in Put(t, s, a, v) <==> s' in t) && (s' in t ==> Put(t, s, a, v)[s'] == t[s'])
    ensures Greedy(Put(t, s, a, v), s') == Greedy(t, s')
  {
  }

  /** Writing an entry the episode indexes keeps the episode's entries indexable. */
  lemma PutFits<S>(ep: seq<Step<S>>, t: Table<S>, s: S, a: int, v: real)
    requires Fits(ep, t)
    ensures Fits(ep, Put(t, s, a, v)) && SameShape(Put(t, s, a, v), t)
  {
    forall i | 0 <= i < |ep|
      ensures Indexes(Put(t, s, a, v), ep[i].state, ep[i].action)
    {
      PutGet(t, s, a, v, ep[i].state, ep[i].action);
    }
    PutGet(t, s, a, v, s, a);
  }

  /** Writing a non-negative count keeps every count of the episode non-negative. */
  lemma PutCounts<S>(ep: seq<Step<S>>, t: Table<S>, s: S, a: int, v: real)
    requires CountsNonNegative(ep, t) && v >= 0.0
    ensures CountsNonNegative(ep, Put(t, s, a, v))
  {
    forall i | 0 <= i < |ep|
      ensures Get(Put(t, s, a, v), ep[i].state, ep[i].action) >= 0.0
    {
      PutGet(t, s, a, v, ep[i].state, ep[i].action);
    }
  }

  /** A table the updaters change in place (a numpy array indexed by state, then action). */
  class ValueTable<S(==)> {
    var rows: Table<S>

    constructor (rows: Table<S>)
      ensures this.rows == rows
    {
      this.rows := rows;
    }
  }

  /** The optional target-policy dictionary: state to greedy action. */
  class PolicyTable<S(==)> {
    var actions: map<S, int>

    constructor (actions: map<S, int>)
      ensures this.actions == actions
    {
      this.actions := actions;
    }
  }

  function Actions<S>(t: PolicyTable?<S>): map<S, int>
    reads t
  {
    if t == null then map[] else t.actions
  }

  /** Python's `if target_policy:` on an optional dictionary: present and non-empty. */
  predicate Truthy<S(==)>(t: PolicyTable?<S>)
    reads t
  {
    t != null && t.actions != map[]
  }

  // ---------------------------------------------------------------------------------------------
  // Off-policy control with weighted importance sampling
  // ---------------------------------------------------------------------------------------------

  /** The inputs of one off-policy pass that do not change during it. */
  datatype OffParams<S> = OffParams(b: Table<S>, gamma: real, updateTarget: bool, tol: real)

  /** The behaviour distribution gives each step of the episode a positive probability. */
  predicate BehaviourFits<S>(ep: seq<Step<S>>, b: Table<S>)
  {
    Fits(ep, b) && forall i :: 0 <= i < |ep| ==> Get(b, ep[i].state, ep[i].action) > 0.0
  }

  predicate OffReady<S>(ep: seq<Step<S>>, Q0: Table<S>, C0: Table<S>, b: Table<S>)
  {
    Fits(ep, Q0) && Fits(ep, C0) && CountsNonNegative(ep, C0) && BehaviourFits(ep, b)
  }

  /** The loop variables of the off-policy pass; `stopped` says the loop has left through its break. */
  datatype OffAcc<S> = OffAcc(
    G: real, W: real, converged: bool,
    Q: Table<S>, C: Table<S>, target: map<S, int>,
    step: int, stopped: bool)

  /** `q += w/c * (g - q)`: move q towards g by the fraction w/c (the incremental weighted mean). */
  function Towards(q: real, w: real, c: real, g: real): real
  {
    q + Quot(w, c) * (g - q)
  }

  /** `W *= 1.0/prob`: the importance-sampling ratio of one more agreeing step. */
  function Scale(w: real, prob: real): real
  {
    w * Quot(1.0, prob)
  }

  /** One iteration of the off-policy loop body on the step e. */
  function OffStep<S>(acc: OffAcc<S>, e: Step<S>, p: OffParams<S>): OffAcc<S>
  {
    var s, a := e.state, e.action;
    var G := Discount(p.gamma, acc.G, e.reward);
    var c := Get(acc.C, s, a) + acc.W;
    var C := Put(acc.C, s, a, c);
    var q := Get(acc.Q, s, a);
    var Q := Put(acc.Q, s, a, Towards(q, acc.W, c, G));
    var converged := acc.converged && Abs(q - Get(Q, s, a)) < p.tol;
    var newAction := Greedy(Q, s);
    var target := if p.updateTarget then acc.target[s := newAction] else acc.target;
    if newAction != a then
      OffAcc(G, acc.W, converged, Q, C, target, acc.step, true)
    else
      OffAcc(G, Scale(acc.W, Get(p.b, s, a)), converged, Q, C, target, acc.step - 1, false)
  }

  /** The loop state before the first iteration, for an episode of n steps. */
  function OffStart<S>(n: int, Q0: Table<S>, C0: Table<S>, tp0: map<S, int>): OffAcc<S>
  {
    OffAcc(0.0, 1.0, true, Q0, C0, tp0, n - 1, false)
  }

  /** One more iteration on step e, or none once the loop has left through its break. */
  function OffNext<S>(acc: OffAcc<S>, e: Step<S>, p: OffParams<S>): OffAcc<S>
  {
    if acc.stopped then acc else OffStep(acc, e, p)
  }

  /** The states of the off-policy loop as it walks back over ep from `start`: entry k is the state once
      the walk has reached index k, and entry |ep| is `start` itself. */
  function OffTrace<S>(ep: seq<Step<S>>, start: OffAcc<S>, p: OffParams<S>): (tr: seq<OffAcc<S>>)
    ensures |tr| == |ep| + 1
  {
    if ep == [] then [start]
    else
      var rest := OffTrace(ep[1..], start, p);
      [OffNext(rest[0], ep[0], p)] + rest
  }

  /** Consecutive entries of a trace are one iteration apart, and the trace ends in its start state. */
  lemma {:induction false} OffTraceAt<S>(ep: seq<Step<S>>, start: OffAcc<S>, p: OffParams<S>, k: int)
    requires 0 <= k <= |ep|
    ensures var tr := OffTrace(ep, start, p);
            && tr[|ep|] == start
            && (k < |ep| ==> tr[k] == OffNext(tr[k + 1], ep[k], p))
    decreases |ep|
  {
    if ep != [] {
      var rest := OffTrace(ep[1..], start, p);
      assert OffTrace(ep, start, p) == [OffNext(rest[0], ep[0], p)] + rest;
      OffTraceAt(ep[1..], start, p, if k > 0 then k - 1 else 0);
      if 0 < k < |ep| {
        assert ep[1..][k - 1] == ep[k];
      }
    }
  }

  /** The trace of one `OffPolicyMCControl` call on an episode, with Q0, C0 and tp0 the tables it starts from. */
  function OffRun<S>(ep: seq<Step<S>>, Q0: Table<S>, C0: Table<S>, tp0: map<S, int>, p: OffParams<S>)
    : (tr: seq<OffAcc<S>>)
    ensures |tr| == |ep| + 1
  {
    OffTrace(ep, OffStart(|ep|, Q0, C0, tp0), p)
  }

  /** Before the first iteration the run is in its start state. */
  lemma OffRunBegin<S>(ep: seq<Step<S>>, Q0: Table<S>, C0: Table<S>, tp0: map<S, int>, p: OffParams<S>)
    ensures OffRun(ep, Q0, C0, tp0, p)[|ep|] == OffStart(|ep|, Q0, C0, tp0)
  {
    OffTraceAt(ep, OffStart(|ep|, Q0, C0, tp0), p, |ep|);
  }

  /** After the break the run goes no further: one index further back it is unchanged. */
  lemma OffRunHalted<S>(ep: seq<Step<S>>, Q0: Table<S>, C0: Table<S>, tp0: map<S, int>, p: OffParams<S>, k: int)
    requires 0 <= k < |ep| && OffRun(ep, Q0, C0, tp0, p)[k + 1].stopped
    ensures OffRun(ep, Q0, C0, tp0, p)[k] == OffRun(ep, Q0, C0, tp0, p)[k + 1]
  {
    OffTraceAt(ep, OffStart(|ep|, Q0, C0, tp0), p, k);
  }

  /** Before the break, one index further back the run has processed step k. */
  lemma OffRunGoes<S>(ep: seq<Step<S>>, Q0: Table<S>, C0: Table<S>, tp0: map<S, int>, p: OffParams<S>, k: int)
    requires 0 <= k < |ep| && !OffRun(ep, Q0, C0, tp0, p)[k + 1].stopped
    ensures OffRun(ep, Q0, C0, tp0, p)[k] == OffStep(OffRun(ep, Q0, C0, tp0, p)[k + 1], ep[k], p)
  {
    OffTraceAt(ep, OffStart(|ep|, Q0, C0, tp0), p, k);
  }

  /** The oldest episode index the pass has processed (|ep| when it has processed none). */
  function ProcessedFrom<S>(acc: OffAcc<S>): int
  {
    if acc.stopped then acc.step else acc.step + 1
  }
  /** What every state of the off-policy loop satisfies. */
  predicate OffInv<S>(ep: seq<Step<S>>, acc: OffAcc<S>, Q0: Table<S>, C0: Table<S>)
  {
    && SameShape(acc.Q, Q0) && SameShape(acc.C, C0)
    && Fits(ep, acc.Q) && Fits(ep, acc.C) && CountsNonNegative(ep, acc.C)
    && acc.W > 0.0
  }
  /** One loop iteration on a step of the episode keeps the loop invariant. */
  lemma OffStepShape<S>(ep: seq<Step<S>>, j: int, acc: OffAcc<S>, Q0: Table<S>, C0: Table<S>, p: OffParams<S>)
    requires 0 <= j < |ep| && OffInv(ep, acc, Q0, C0) && BehaviourFits(ep, p.b)
    ensures OffInv(ep, OffStep(acc, ep[j], p), Q0, C0)
  {
    var s, a := ep[j].state, ep[j].action;
    var c := Get(acc.C, s, a) + acc.W;
    var q := Get(acc.Q, s, a);
    var G := Discount(p.gamma, acc.G, ep[j].reward);
    var r := OffStep(acc, ep[j], p);
    assert Get(acc.C, s, a) >= 0.0;
    PutFits(ep, acc.C, s, a, c);
    PutCounts(ep, acc.C, s, a, c);
    PutFits(ep, acc.Q, s, a, Towards(q, acc.W, c, G));
    assert r.C == Put(acc.C, s, a, c);
    var inv := Quot(1.0, Get(p.b, s, a));
    assert inv > 0.0;
    assert Scale(acc.W, Get(p.b, s, a)) == acc.W * inv;
    MulPositive(acc.W, inv);
  }
  lemma MulPositive(x: real, y: real)
    requires x > 0.0 && y > 0.0
    ensures x * y > 0.0
  {
  }
  /** The tables keep their shape, the counts stay non-negative and the weight stays positive. */
  lemma {:induction false} OffRunShape<S>(ep: seq<Step<S>>, Q0: Table<S>, C0: Table<S>, tp0: map<S, int>,
                                          p: OffParams<S>, k: int)
    requires 0 <= k <= |ep| && OffReady(ep, Q0, C0, p.b)
    ensures OffInv(ep, OffRun(ep, Q0, C0, tp0, p)[k], Q0, C0)
    decreases |ep| - k
  {
    var tr := OffRun(ep, Q0, C0, tp0, p);
    if k == |ep| {
      OffRunBegin(ep, Q0, C0, tp0, p);
    } else {
      OffRunShape(ep, Q0, C0, tp0, p, k + 1);
      if tr[k + 1].stopped {
        OffRunHalted(ep, Q0, C0, tp0, p, k);
      } else {
        OffRunGoes(ep, Q0, C0, tp0, p, k);
        OffStepShape(ep, k, tr[k + 1], Q0, C0, p);
      }
    }
  }

  /** Once the run has stopped, older steps change nothing. */
  lemma {:induction false} OffRunStoppedStays<S>(ep: seq<Step<S>>, Q0: Table<S>, C0: Table<S>, tp0: map<S, int>,
                                                 p: OffParams<S>, j: int, k: int)
    requires 0 <= j <= k <= |ep| && OffRun(ep, Q0, C0, tp0, p)[k].stopped
    ensures OffRun(ep, Q0, C0, tp0, p)[j] == OffRun(ep, Q0, C0, tp0, p)[k]
    decreases k - j
  {
    if j < k {
      OffRunStoppedStays(ep, Q0, C0, tp0, p, j + 1, k);
      OffRunHalted(ep, Q0, C0, tp0, p, j);
    }
  }

  /** The control part of one iteration: G accumulates, the break is taken exactly when the new greedy
      action differs from the taken one, and otherwise W is scaled and the index moves back. */
  lemma OffStepControl<S>(acc: OffAcc<S>, e: Step<S>, p: OffParams<S>)
    ensures var r := OffStep(acc, e, p);
            && r.G == Discount(p.gamma, acc.G, e.reward)
            && (r.stopped <==> Greedy(r.Q, e.state) != e.action)
            && r.step == (if r.stopped then acc.step else acc.step - 1)
            && r.W == (if r.stopped then acc.W else Scale(acc.W, Get(p.b, e.state, e.action)))
  {
  }
  /** The data part of one iteration: C grows by W at (s, a), Q moves towards G by W / C there, the
      convergence test compares the entry before and after, and the target records the new greedy action. */
  lemma OffStepData<S>(acc: OffAcc<S>, e: Step<S>, p: OffParams<S>)
    ensures OffStep(acc, e, p).C == Put(acc.C, e.state, e.action, Get(acc.C, e.state, e.action) + acc.W)
    ensures OffStep(acc, e, p).Q
              == Put(acc.Q, e.state, e.action,
                     Towards(Get(acc.Q, e.state, e.action), acc.W, Get(acc.C, e.state, e.action) + acc.W,
                             OffStep(acc, e, p).G))
    ensures OffStep(acc, e, p).converged
              == (acc.converged
                  && Abs(Get(acc.Q, e.state, e.action) - Get(OffStep(acc, e, p).Q, e.state, e.action)) < p.tol)
    ensures OffStep(acc, e, p).target
              == if p.updateTarget then acc.target[e.state := Greedy(OffStep(acc, e, p).Q, e.state)]
                 else acc.target
  {
  }
  /** Where the walk stands: without the break, at k - 1; after it, at the index of the step that broke. */
  lemma {:induction false} OffRunStep<S>(ep: seq<Step<S>>, Q0: Table<S>, C0: Table<S>, tp0: map<S, int>,
                                         p: OffParams<S>, k: int)
    requires 0 <= k <= |ep|
    ensures var acc := OffRun(ep, Q0, C0, tp0, p)[k];
            && (!acc.stopped ==> acc.step == k - 1)
            && (acc.stopped ==> k <= acc.step < |ep|)
    decreases |ep| - k
  {
    var tr := OffRun(ep, Q0, C0, tp0, p);
    if k == |ep| {
      OffRunBegin(ep, Q0, C0, tp0, p);
    } else {
      OffRunStep(ep, Q0, C0, tp0, p, k + 1);
      if tr[k + 1].stopped {
        OffRunHalted(ep, Q0, C0, tp0, p, k);
      } else {
        OffRunGoes(ep, Q0, C0, tp0, p, k);
        OffStepControl(tr[k + 1], ep[k], p);
      }
    }
  }

  /** A step the walk reaches is processed, whether or not it breaks there. */
  lemma OffRunProcessed<S>(ep: seq<Step<S>>, Q0: Table<S>, C0: Table<S>, tp0: map<S, int>, p: OffParams<S>, k: int)
    requires 0 <= k < |ep| && !OffRun(ep, Q0, C0, tp0, p)[k + 1].stopped
    ensures ProcessedFrom(OffRun(ep, Q0, C0, tp0, p)[k]) == k
  {
    var tr := OffRun(ep, Q0, C0, tp0, p);
    OffRunStep(ep, Q0, C0, tp0, p, k + 1);
    OffRunGoes(ep, Q0, C0, tp0, p, k);
    OffStepControl(tr[k + 1], ep[k], p);
  }

  /** Right after processing step k of the trace tr, the greedy action at its state is the action taken. */
  predicate Agrees<S>(ep: seq<Step<S>>, tr: seq<OffAcc<S>>, k: int)
    requires 0 <= k < |ep| && |tr| == |ep| + 1
  {
    Greedy(tr[k].Q, ep[k].state) == ep[k].action
  }

  /** Every step from index lo on agreed with the greedy action. */
  predicate AllAgree<S>(ep: seq<Step<S>>, tr: seq<OffAcc<S>>, lo: int)
    requires |tr| == |ep| + 1
  {
    forall k :: 0 <= lo <= k < |ep| ==> Agrees(ep, tr, k)
  }

  /** Without the break, every processed step agreed with the greedy action. */
  lemma {:induction false} OffPolicyAgreeing<S>(ep: seq<Step<S>>, Q0: Table<S>, C0: Table<S>, tp0: map<S, int>,
                                                p: OffParams<S>, j: int)
    requires 0 <= j <= |ep| && !OffRun(ep, Q0, C0, tp0, p)[j].stopped
    ensures AllAgree(ep, OffRun(ep, Q0, C0, tp0, p), j)
    decreases |ep| - j
  {
    var tr := OffRun(ep, Q0, C0, tp0, p);
    if j < |ep| {
      if tr[j + 1].stopped {
        OffRunHalted(ep, Q0, C0, tp0, p, j);
        assert false;
      }
      OffPolicyAgreeing(ep, Q0, C0, tp0, p, j + 1);
      OffRunGoes(ep, Q0, C0, tp0, p, j);
      OffStepControl(tr[j + 1], ep[j], p);
      assert Agrees(ep, tr, j);
    }
  }

  /** The run stops right after the most recent step whose new greedy action differs from the action
      taken: every newer step agreed, that step's update is the last one, and nothing older is processed. */
  lemma {:induction false} OffPolicyStopIndex<S>(ep: seq<Step<S>>, Q0: Table<S>, C0: Table<S>, tp0: map<S, int>,
                                                 p: OffParams<S>, j: int)
    requires 0 <= j <= |ep| && OffRun(ep, Q0, C0, tp0, p)[j].stopped
    ensures var tr := OffRun(ep, Q0, C0, tp0, p);
            var k := tr[j].step;
            && j <= k < |ep|
            && tr[k] == tr[j]
            && !tr[k + 1].stopped
            && !Agrees(ep, tr, k)
            && AllAgree(ep, tr, k + 1)
    decreases |ep| - j
  {
    var tr := OffRun(ep, Q0, C0, tp0, p);
    if j == |ep| {
      OffRunBegin(ep, Q0, C0, tp0, p);
      assert false;
    }
    if tr[j + 1].stopped {
      OffPolicyStopIndex(ep, Q0, C0, tp0, p, j + 1);
      OffRunHalted(ep, Q0, C0, tp0, p, j);
    } else {
      OffRunStep(ep, Q0, C0, tp0, p, j + 1);
      OffPolicyAgreeing(ep, Q0, C0, tp0, p, j + 1);
      OffRunGoes(ep, Q0, C0, tp0, p, j);
      OffStepControl(tr[j + 1], ep[j], p);
      assert tr[j].step == j;
    }
  }

  /** After the break, `step` is the index of the step that broke: the walk stopped at it, had not
      stopped before it, and its new greedy action differs from the action taken. */
  lemma OffRunBreakStep<S>(ep: seq<Step<S>>, Q0: Table<S>, C0: Table<S>, tp0: map<S, int>, p: OffParams<S>, k: int)
    requires 0 <= k <= |ep| && OffRun(ep, Q0, C0, tp0, p)[k].stopped
    ensures var tr := OffRun(ep, Q0, C0, tp0, p);
            var b := tr[k].step;
            && k <= b < |ep| && tr[b].stopped && !tr[b + 1].stopped && !Agrees(ep, tr, b)
  {
    OffPolicyStopIndex(ep, Q0, C0, tp0, p, k);
  }

  /** At every processed step, G is the discounted return of that step and all later ones. */
  lemma {:induction false} OffPolicyReturn<S>(ep: seq<Step<S>>, Q0: Table<S>, C0: Table<S>, tp0: map<S, int>,
                                              p: OffParams<S>, j: int)
    requires 0 <= j < |ep| && !OffRun(ep, Q0, C0, tp0, p)[j + 1].stopped
    ensures OffRun(ep, Q0, C0, tp0, p)[j].G == Return(ep, j, p.gamma)
    decreases |ep| - j
  {
    var tr := OffRun(ep, Q0, C0, tp0, p);
    OffRunGoes(ep, Q0, C0, tp0, p, j);
    OffStepControl(tr[j + 1], ep[j], p);
    if j + 1 < |ep| {
      if tr[j + 2].stopped {
        OffRunHalted(ep, Q0, C0, tp0, p, j + 1);
        assert false;
      }
      OffPolicyReturn(ep, Q0, C0, tp0, p, j + 1);
    } else {
      OffRunBegin(ep, Q0, C0, tp0, p);
    }
  }

  /** The product of the inverse behaviour probabilities of steps j, ..., |ep|-1. */
  function Weight<S>(ep: seq<Step<S>>, b: Table<S>, j: int): real
    requires 0 <= j <= |ep|
    decreases |ep| - j
  {
    if j == |ep| then 1.0 else Scale(Weight(ep, b, j + 1), Get(b, ep[j].state, ep[j].action))
  }
  /** W is the product of 1/b over the steps that agreed with the greedy action: every processed step,
      or all but the last one when the run stopped. */
  lemma {:induction false} OffPolicyWeight<S>(ep: seq<Step<S>>, Q0: Table<S>, C0: Table<S>, tp0: map<S, int>,
                                              p: OffParams<S>, j: int)
    requires 0 <= j <= |ep|
    ensures var acc := OffRun(ep, Q0, C0, tp0, p)[j];
            && 0 <= acc.step + 1 <= |ep|
            && acc.W == Weight(ep, p.b, acc.step + 1)
    decreases |ep| - j
  {
    var tr := OffRun(ep, Q0, C0, tp0, p);
    OffRunStep(ep, Q0, C0, tp0, p, j);
    if j == |ep| {
      OffRunBegin(ep, Q0, C0, tp0, p);
    } else {
      OffRunStep(ep, Q0, C0, tp0, p, j + 1);
      OffPolicyWeight(ep, Q0, C0, tp0, p, j + 1);
      if tr[j + 1].stopped {
        OffRunHalted(ep, Q0, C0, tp0, p, j);
      } else {
        OffRunGoes(ep, Q0, C0, tp0, p, j);
        OffStepControl(tr[j + 1], ep[j], p);
      }
    }
  }

  /** With behaviour probabilities in (0, 1], every product of inverse probabilities is at least 1. */
  lemma {:induction false} WeightAtLeastOne<S>(ep: seq<Step<S>>, b: Table<S>, j: int)
    requires 0 <= j <= |ep| && BehaviourFits(ep, b)
    requires forall i :: 0 <= i < |ep| ==> Get(b, ep[i].state, ep[i].action) <= 1.0
    ensures Weight(ep, b, j) >= 1.0
    decreases |ep| - j
  {
    if j < |ep| {
      WeightAtLeastOne(ep, b, j + 1);
      var prob := Get(b, ep[j].state, ep[j].action);
      var x := 1.0 / prob;
      assert prob > 0.0;
      assert x * prob == 1.0;
      assert x > 0.0;
      assert x * prob <= x * 1.0;
      assert Weight(ep, b, j + 1) * x >= 1.0 * x;
    }
  }
  /** One iteration leaves the entries of every other pair alone. */
  lemma OffStepFrame<S>(acc: OffAcc<S>, e: Step<S>, p: OffParams<S>, s: S, a: int)
    requires !SamePair(e, s, a)
    ensures Get(OffStep(acc, e, p).Q, s, a) == Get(acc.Q, s, a)
    ensures Get(OffStep(acc, e, p).C, s, a) == Get(acc.C, s, a)
  {
    OffStepData(acc, e, p);
    var c := Get(acc.C, e.state, e.action) + acc.W;
    PutGet(acc.C, e.state, e.action, c, s, a);
    PutGet(acc.Q, e.state, e.action, Towards(Get(acc.Q, e.state, e.action), acc.W, c, OffStep(acc, e, p).G), s, a);
  }
  /** Entries of pairs the run has not processed keep their values in Q and C. */
  lemma {:induction false} OffPolicyFrame<S>(ep: seq<Step<S>>, Q0: Table<S>, C0: Table<S>, tp0: map<S, int>,
                                             p: OffParams<S>, j: int, s: S, a: int)
    requires 0 <= j <= |ep|
    requires Untouched(ep, ProcessedFrom(OffRun(ep, Q0, C0, tp0, p)[j]), s, a)
    ensures Get(OffRun(ep, Q0, C0, tp0, p)[j].Q, s, a) == Get(Q0, s, a)
    ensures Get(OffRun(ep, Q0, C0, tp0, p)[j].C, s, a) == Get(C0, s, a)
    decreases |ep| - j
  {
    var tr := OffRun(ep, Q0, C0, tp0, p);
    if j == |ep| {
      OffRunBegin(ep, Q0, C0, tp0, p);
    } else if tr[j + 1].stopped {
      OffRunHalted(ep, Q0, C0, tp0, p, j);
      OffPolicyFrame(ep, Q0, C0, tp0, p, j + 1, s, a);
    } else {
      OffRunProcessed(ep, Q0, C0, tp0, p, j);
      OffRunStep(ep, Q0, C0, tp0, p, j + 1);
      assert ProcessedFrom(tr[j + 1]) == j + 1;
      assert !SamePair(ep[j], s, a);
      OffPolicyFrame(ep, Q0, C0, tp0, p, j + 1, s, a);
      OffRunGoes(ep, Q0, C0, tp0, p, j);
      OffStepFrame(tr[j + 1], ep[j], p, s, a);
    }
  }

  /** Processing step k of the trace tr moved its Q entry by less than the tolerance. */
  predicate SmallChange<S>(ep: seq<Step<S>>, tr: seq<OffAcc<S>>, k: int, tol: real)
    requires 0 <= k < |ep| && |tr| == |ep| + 1
  {
    Abs(Get(tr[k + 1].Q, ep[k].state, ep[k].action) - Get(tr[k].Q, ep[k].state, ep[k].action)) < tol
  }

  /** Every step from index lo on passed the small-change test. */
  predicate AllSmall<S>(ep: seq<Step<S>>, tr: seq<OffAcc<S>>, lo: int, tol: real)
    requires |tr| == |ep| + 1
  {
    forall k :: 0 <= lo <= k < |ep| ==> SmallChange(ep, tr, k, tol)
  }

  /** A processed step folds its own small-change test into the convergence flag. */
  lemma OffConvergedStep<S>(ep: seq<Step<S>>, Q0: Table<S>, C0: Table<S>, tp0: map<S, int>, p: OffParams<S>, j: int)
    requires 0 <= j < |ep| && !OffRun(ep, Q0, C0, tp0, p)[j + 1].stopped
    ensures var tr := OffRun(ep, Q0, C0, tp0, p);
            && ProcessedFrom(tr[j]) == j
            && tr[j].converged == (tr[j + 1].converged && SmallChange(ep, tr, j, p.tol))
  {
    var tr := OffRun(ep, Q0, C0, tp0, p);
    OffRunProcessed(ep, Q0, C0, tp0, p, j);
    OffRunGoes(ep, Q0, C0, tp0, p, j);
    OffStepData(tr[j + 1], ep[j], p);
  }

  /** All tests from j on pass exactly when test j and all tests from j + 1 on pass. */
  lemma AllSmallSplit<S>(ep: seq<Step<S>>, tr: seq<OffAcc<S>>, j: int, tol: real)
    requires 0 <= j < |ep| && |tr| == |ep| + 1
    ensures AllSmall(ep, tr, j, tol) <==> SmallChange(ep, tr, j, tol) && AllSmall(ep, tr, j + 1, tol)
  {
  }

  /** The convergence flag is the conjunction of the small-change tests over exactly the processed steps
      (so it is true for an empty episode). */
  lemma {:induction false} OffPolicyConvergence<S>(ep: seq<Step<S>>, Q0: Table<S>, C0: Table<S>, tp0: map<S, int>,
                                                   p: OffParams<S>, j: int)
    requires 0 <= j <= |ep|
    ensures var tr := OffRun(ep, Q0, C0, tp0, p);
            tr[j].converged <==> AllSmall(ep, tr, ProcessedFrom(tr[j]), p.tol)
    decreases |ep| - j
  {
    var tr := OffRun(ep, Q0, C0, tp0, p);
    OffRunStep(ep, Q0, C0, tp0, p, j);
    if j == |ep| {
      OffRunBegin(ep, Q0, C0, tp0, p);
    } else {
      OffPolicyConvergence(ep, Q0, C0, tp0, p, j + 1);
      if tr[j + 1].stopped {
        OffRunHalted(ep, Q0, C0, tp0, p, j);
      } else {
        OffRunStep(ep, Q0, C0, tp0, p, j + 1);
        OffConvergedStep(ep, Q0, C0, tp0, p, j);
        AllSmallSplit(ep, tr, j, p.tol);
      }
    }
  }

  /** Some step from index lo on is in state s. */
  ghost predicate ProcessedState<S>(ep: seq<Step<S>>, lo: int, s: S)
  {
    exists k :: 0 <= lo <= k < |ep| && ep[k].state == s
  }

  /** With a target table, every processed state ends up mapped to the greedy action of its final Q row;
      other states keep their entries. Without one, nothing is recorded. */
  lemma {:induction false} OffPolicyTarget<S>(ep: seq<Step<S>>, Q0: Table<S>, C0: Table<S>, tp0: map<S, int>,
                                              p: OffParams<S>, j: int, s: S)
    requires 0 <= j <= |ep|
    ensures var acc := OffRun(ep, Q0, C0, tp0, p)[j];
            && (!p.updateTarget ==> acc.target == tp0)
            && (p.updateTarget && ProcessedState(ep, ProcessedFrom(acc), s) ==>
                  s in acc.target && acc.target[s] == Greedy(acc.Q, s))
            && (!ProcessedState(ep, ProcessedFrom(acc), s) ==>
                  (s in acc.target <==> s in tp0) && (s in tp0 ==> acc.target[s] == tp0[s]))
    decreases |ep| - j
  {
    var tr := OffRun(ep, Q0, C0, tp0, p);
    OffRunStep(ep, Q0, C0, tp0, p, j);
    if j == |ep| {
      OffRunBegin(ep, Q0, C0, tp0, p);
    } else if tr[j + 1].stopped {
      OffRunHalted(ep, Q0, C0, tp0, p, j);
      OffPolicyTarget(ep, Q0, C0, tp0, p, j + 1, s);
    } else {
      var prev := tr[j + 1];
      var e := ep[j];
      OffRunStep(ep, Q0, C0, tp0, p, j + 1);
      OffPolicyTarget(ep, Q0, C0, tp0, p, j + 1, s);
      OffRunProcessed(ep, Q0, C0, tp0, p, j);
      OffRunGoes(ep, Q0, C0, tp0, p, j);
      OffStepData(prev, e, p);
      assert ProcessedFrom(prev) == j + 1;
      if e.state == s {
        assert ProcessedState(ep, j, s);
      } else {
        PutOtherRow(prev.Q, e.state, e.action,
                    Towards(Get(prev.Q, e.state, e.action), prev.W, Get(prev.C, e.state, e.action) + prev.W,
                            tr[j].G), s);
        assert Greedy(tr[j].Q, s) == Greedy(prev.Q, s);
        if ProcessedState(ep, j, s) {
          var k :| j <= k < |ep| && ep[k].state == s;
          assert ProcessedState(ep, j + 1, s);
        }
        assert ProcessedState(ep, j + 1, s) ==> ProcessedState(ep, j, s);
      }
    }
  }

  /** The weighted incremental mean: C grows by the current W before Q moves, and then
      C' * Q' == C * Q + W * G at the updated pair. */
  lemma OffPolicyIncrementalMean<S>(acc: OffAcc<S>, e: Step<S>, p: OffParams<S>)
    requires Indexes(acc.Q, e.state, e.action) && Indexes(acc.C, e.state, e.action)
    requires Get(acc.C, e.state, e.action) >= 0.0 && acc.W > 0.0
    ensures var r := OffStep(acc, e, p);
            && Get(r.C, e.state, e.action) == Get(acc.C, e.state, e.action) + acc.W
            && Get(r.C, e.state, e.action) * Get(r.Q, e.state, e.action)
                 == Get(acc.C, e.state, e.action) * Get(acc.Q, e.state, e.action) + acc.W * r.G
  {
    var r := OffStep(acc, e, p);
    var c, q, w := Get(acc.C, e.state, e.action), Get(acc.Q, e.state, e.action), acc.W;
    var c' := c + w;
    assert Get(r.C, e.state, e.action) == c';
    assert Get(r.Q, e.state, e.action) == q + w / c' * (r.G - q);
    calc {
      c' * (q + w / c' * (r.G - q));
      c' * q + (c' * (w / c')) * (r.G - q);
      { assert c' * (w / c') == w; }
      c * q + w * r.G;
    }
  }
  /** Before an iteration of the loop below: the entries it reads exist and the new count is positive. */
  lemma OffIterationReads<S>(ep: seq<Step<S>>, Q0: Table<S>, C0: Table<S>, tp0: map<S, int>, p: OffParams<S>,
                             i: int, acc: OffAcc<S>)
    requires 0 < i <= |ep| && OffReady(ep, Q0, C0, p.b)
    requires OffRun(ep, Q0, C0, tp0, p)[i] == acc
    ensures var s, a := ep[i - 1].state, ep[i - 1].action;
            && Indexes(acc.Q, s, a) && Indexes(acc.C, s, a) && Indexes(p.b, s, a)
            && acc.C[s][a] + acc.W > 0.0
  {
    OffRunShape(ep, Q0, C0, tp0, p, i);
  }

  /** After an iteration of the loop below: the run one index further back holds the loop's new values,
      and after the break it is the final state of the run. */
  lemma OffIterationResult<S>(ep: seq<Step<S>>, Q0: Table<S>, C0: Table<S>, tp0: map<S, int>, p: OffParams<S>,
                              i: int, acc: OffAcc<S>, G: real, Qr: Table<S>, Cr: Table<S>,
                              conv: bool, na: int, tgt: map<S, int>)
    requires 0 < i <= |ep|
    requires OffRun(ep, Q0, C0, tp0, p)[i] == acc && !acc.stopped
    requires var s, a := ep[i - 1].state, ep[i - 1].action;
             && Indexes(acc.Q, s, a) && Indexes(acc.C, s, a) && Indexes(p.b, s, a)
             && G == Discount(p.gamma, acc.G, ep[i - 1].reward)
             && Cr == Put(acc.C, s, a, acc.C[s][a] + acc.W)
             && Qr == Put(acc.Q, s, a, Towards(acc.Q[s][a], acc.W, acc.C[s][a] + acc.W, G))
             && conv == (acc.converged && Abs(acc.Q[s][a] - Qr[s][a]) < p.tol)
             && na == FirstArgmax(Qr[s])
             && tgt == if p.updateTarget then acc.target[s := na] else acc.target
    ensures var s, a := ep[i - 1].state, ep[i - 1].action;
            na == a ==>
              OffRun(ep, Q0, C0, tp0, p)[i - 1]
                == OffAcc(G, Scale(acc.W, p.b[s][a]), conv, Qr, Cr, tgt, acc.step - 1, false)
    ensures na != ep[i - 1].action ==>
              OffRun(ep, Q0, C0, tp0, p)[0] == OffAcc(G, acc.W, conv, Qr, Cr, tgt, acc.step, true)
  {
    OffRunGoes(ep, Q0, C0, tp0, p, i - 1);
    if na != ep[i - 1].action {
      OffRunStoppedStays(ep, Q0, C0, tp0, p, 0, i - 1);
    }
  }

  /** `OffPolicyMCControl`: walks the episode backwards, updating C, Q and the optional target table in
      place; the behaviour distribution is fetched once, and the result is the convergence flag. */
  method OffPolicyMCControl<S(==)>(episode: seq<Step<S>>, Q: ValueTable<S>, C: ValueTable<S>,
                                   getBehaviourDist: () -> Table<S>, gamma: real,
                                   targetPolicy: PolicyTable?<S>, convergenceError: real)
    returns (converged: bool)
    requires Q != C
    requires OffReady(episode, Q.rows, C.rows, getBehaviourDist())
    modifies Q, C, targetPolicy
    ensures var f := OffRun(episode, old(Q.rows), old(C.rows), old(Actions(targetPolicy)),
                            OffParams(getBehaviourDist(), gamma, old(Truthy(targetPolicy)), convergenceError))[0];
            && Q.rows == f.Q && C.rows == f.C && converged == f.converged
            && (targetPolicy != null ==> targetPolicy.actions == f.target)
  {
    var bPolicy := getBehaviourDist();
    ghost var p := OffParams(bPolicy, gamma, Truthy(targetPolicy), convergenceError);
    ghost var Q0, C0, tp0 := Q.rows, C.rows, Actions(targetPolicy);
    OffRunBegin(episode, Q0, C0, tp0, p);
    var G, W := 0.0, 1.0;
    converged := true;
    var step := |episode| - 1;
    var i := |episode|;
    ghost var stopped := false;
    while i > 0
      invariant 0 <= i <= |episode|
      invariant OffRun(episode, Q0, C0, tp0, p)[i]
                == OffAcc(G, W, converged, Q.rows, C.rows, Actions(targetPolicy), step, false)
      invariant Truthy(targetPolicy) == p.updateTarget
      invariant !stopped
    {
      var e := episode[i - 1];
      ghost var acc := OffAcc(G, W, converged, Q.rows, C.rows, Actions(targetPolicy), step, false);
      OffIterationReads(episode, Q0, C0, tp0, p, i, acc);
      G := Discount(gamma, G, e.reward);
      var c := C.rows[e.state][e.action] + W;
      C.rows := Put(C.rows, e.state, e.action, c);
      var q := Q.rows[e.state][e.action];
      var q' := Towards(q, W, c, G);
      var row := Q.rows[e.state][e.action := q'];
      Q.rows := Q.rows[e.state := row];
      converged := converged && Abs(q - q') < convergenceError;
      var newAction := FirstArgmax(row);
      if targetPolicy != null && targetPolicy.actions != map[] {
        targetPolicy.actions := targetPolicy.actions[e.state := newAction];
        assert e.state in targetPolicy.actions;
      }
      OffIterationResult(episode, Q0, C0, tp0, p, i, acc, G, Q.rows, C.rows, converged, newAction,
                         Actions(targetPolicy));
      if newAction != e.action {
        stopped := true;
        break;
      }
      W := Scale(W, bPolicy[e.state][e.action]);
      step := step - 1;
      i := i - 1;
    }
    ghost var f := OffRun(episode, Q0, C0, tp0, p)[0];
    assert f == OffAcc(G, W, converged, Q.rows, C.rows, Actions(targetPolicy), step, stopped);
    assert Q.rows == f.Q && C.rows == f.C && converged == f.converged;
  }

  // ---------------------------------------------------------------------------------------------
  // On-policy control: first-visit and every-visit sample averages
  // ---------------------------------------------------------------------------------------------

  /** The loop variables of an on-policy pass. */
  datatype OnAcc<S> = OnAcc(G: real, Q: Table<S>, C: Table<S>)

  /** `q += (g - q)/c`: the running mean after its c-th sample g. */
  function Averaged(q: real, c: real, g: real): real
  {
    q + Quot(g - q, c)
  }

  /** One backward step of an on-policy pass: G always accumulates; the step's entries of C and Q are
      updated only when `update` holds. */
  function OnStep<S>(acc: OnAcc<S>, e: Step<S>, update: bool, gamma: real): OnAcc<S>
  {
    var G := Discount(gamma, acc.G, e.reward);
    if !update then OnAcc(G, acc.Q, acc.C)
    else
      var c := Get(acc.C, e.state, e.action) + 1.0;
      OnAcc(G, Put(acc.Q, e.state, e.action, Averaged(Get(acc.Q, e.state, e.action), c, G)),
            Put(acc.C, e.state, e.action, c))
  }

  /** The pass after it has walked back from the end of ep down to index j; marks[k] says whether
      step k is updated. */
  function OnPass<S>(ep: seq<Step<S>>, j: int, Q0: Table<S>, C0: Table<S>, gamma: real, marks: seq<bool>)
    : OnAcc<S>
    requires |marks| == |ep| && 0 <= j <= |ep|
    decreases |ep| - j
  {
    if j == |ep| then OnAcc(0.0, Q0, C0)
    else OnStep(OnPass(ep, j + 1, Q0, C0, gamma, marks), ep[j], marks[j], gamma)
  }

  /** Step k is the first occurrence of its (state, action) pair in ep. */
  ghost predicate IsFirst<S>(ep: seq<Step<S>>, k: int)
    requires 0 <= k < |ep|
  {
    forall j :: 0 <= j < k ==> !SamePair(ep[j], ep[k].state, ep[k].action)
  }

  /** The first-visit marks: exactly the first occurrences are updated. */
  ghost function FirstMarks<S>(ep: seq<Step<S>>): seq<bool>
  {
    seq(|ep|, k requires 0 <= k < |ep| => IsFirst(ep, k))
  }

  /** The every-visit marks: every step is updated. */
  function AllMarks(n: nat): seq<bool>
  {
    seq(n, _ => true)
  }

  /** The (state, action) pairs of the first i steps (the `visited` set). */
  ghost function Visited<S>(ep: seq<Step<S>>, i: int): set<(S, int)>
    requires 0 <= i <= |ep|
  {
    set k | 0 <= k < i :: (ep[k].state, ep[k].action)
  }

  /** Membership in `visited` is the first-occurrence test. */
  lemma VisitedIsFirst<S>(ep: seq<Step<S>>, i: int)
    requires 0 <= i < |ep|
    ensures (ep[i].state, ep[i].action) !in Visited(ep, i) <==> IsFirst(ep, i)
    ensures Visited(ep, i + 1) == Visited(ep, i) + {(ep[i].state, ep[i].action)}
  {
    if !IsFirst(ep, i) {
      var j :| 0 <= j < i && SamePair(ep[j], ep[i].state, ep[i].action);
      assert (ep[j].state, ep[j].action) in Visited(ep, i);
    }
  }

  /** How many updates the pass makes to the pair (s, a) from index j on. */
  ghost function Updates<S>(ep: seq<Step<S>>, marks: seq<bool>, j: int, s: S, a: int): nat
    requires |marks| == |ep| && 0 <= j <= |ep|
    decreases |ep| - j
  {
    if j == |ep| then 0
    else (if marks[j] && SamePair(ep[j], s, a) then 1 else 0) + Updates(ep, marks, j + 1, s, a)
  }

  /** How many steps from index j on use the pair (s, a). */
  ghost function Occurrences<S>(ep: seq<Step<S>>, j: int, s: S, a: int): nat
    requires 0 <= j <= |ep|
    decreases |ep| - j
  {
    if j == |ep| then 0 else (if SamePair(ep[j], s, a) then 1 else 0) + Occurrences(ep, j + 1, s, a)
  }

  /** Some step of ep uses the pair (s, a). */
  ghost predicate Occurs<S>(ep: seq<Step<S>>, s: S, a: int)
  {
    exists k :: 0 <= k < |ep| && SamePair(ep[k], s, a)
  }

  /** Every step's entries of Q and C exist all along the pass. */
  lemma {:induction false} OnPassShape<S>(ep: seq<Step<S>>, j: int, Q0: Table<S>, C0: Table<S>, gamma: real,
                                          marks: seq<bool>)
    requires |marks| == |ep| && 0 <= j <= |ep| && Fits(ep, Q0) && Fits(ep, C0)
    ensures var acc := OnPass(ep, j, Q0, C0, gamma, marks);
            Fits(ep, acc.Q) && Fits(ep, acc.C) && SameShape(acc.Q, Q0) && SameShape(acc.C, C0)
    decreases |ep| - j
  {
    if j < |ep| {
      OnPassShape(ep, j + 1, Q0, C0, gamma, marks);
      var acc := OnPass(ep, j + 1, Q0, C0, gamma, marks);
      var e := ep[j];
      if marks[j] {
        var c := Get(acc.C, e.state, e.action) + 1.0;
        PutFits(ep, acc.Q, e.state, e.action, Averaged(Get(acc.Q, e.state, e.action), c, Discount(gamma, acc.G, e.reward)));
        PutFits(ep, acc.C, e.state, e.action, c);
      }
    }
  }

  /** At every step of an on-policy pass, G is the discounted return from that step on, whether or not
      the step is updated. */
  lemma {:induction false} OnPassReturn<S>(ep: seq<Step<S>>, j: int, Q0: Table<S>, C0: Table<S>, gamma: real,
                                           marks: seq<bool>)
    requires |marks| == |ep| && 0 <= j <= |ep|
    ensures OnPass(ep, j, Q0, C0, gamma, marks).G == Return(ep, j, gamma)
    decreases |ep| - j
  {
    if j < |ep| {
      OnPassReturn(ep, j + 1, Q0, C0, gamma, marks);
    }
  }

  /** The count of each pair rises by exactly the number of updates made to it. */
  lemma {:induction false} OnPassCounts<S>(ep: seq<Step<S>>, j: int, Q0: Table<S>, C0: Table<S>, gamma: real,
                                           marks: seq<bool>, s: S, a: int)
    requires |marks| == |ep| && 0 <= j <= |ep| && Indexes(C0, s, a)
    ensures var C := OnPass(ep, j, Q0, C0, gamma, marks).C;
            Indexes(C, s, a) && Get(C, s, a) == Get(C0, s, a) + Updates(ep, marks, j, s, a) as real
    decreases |ep| - j
  {
    if j < |ep| {
      OnPassCounts(ep, j + 1, Q0, C0, gamma, marks, s, a);
      var acc := OnPass(ep, j + 1, Q0, C0, gamma, marks);
      var e := ep[j];
      if marks[j] {
        PutGet(acc.C, e.state, e.action, Get(acc.C, e.state, e.action) + 1.0, s, a);
      }
    }
  }

  /** Pairs the episode does not use keep their entries of Q and C. */
  lemma {:induction false} OnPassFrame<S>(ep: seq<Step<S>>, j: int, Q0: Table<S>, C0: Table<S>, gamma: real,
                                          marks: seq<bool>, s: S, a: int)
    requires |marks| == |ep| && 0 <= j <= |ep| && Untouched(ep, j, s, a)
    ensures Get(OnPass(ep, j, Q0, C0, gamma, marks).Q, s, a) == Get(Q0, s, a)
    ensures Get(OnPass(ep, j, Q0, C0, gamma, marks).C, s, a) == Get(C0, s, a)
    decreases |ep| - j
  {
    if j < |ep| {
      OnPassFrame(ep, j + 1, Q0, C0, gamma, marks, s, a);
      var acc := OnPass(ep, j + 1, Q0, C0, gamma, marks);
      var e := ep[j];
      assert !SamePair(e, s, a);
      if marks[j] {
        var c := Get(acc.C, e.state, e.action) + 1.0;
        PutGet(acc.C, e.state, e.action, c, s, a);
        PutGet(acc.Q, e.state, e.action, Averaged(Get(acc.Q, e.state, e.action), c, Discount(gamma, acc.G, e.reward)), s, a);
      }
    }
  }

  /** With non-negative counts to begin with, every update of an on-policy pass divides by a count of at
      least 1, so the running mean never divides by zero. */
  lemma OnPassDivisor<S>(ep: seq<Step<S>>, j: int, Q0: Table<S>, C0: Table<S>, gamma: real, marks: seq<bool>)
    requires |marks| == |ep| && 0 <= j < |ep| && Fits(ep, C0) && CountsNonNegative(ep, C0)
    ensures Get(OnPass(ep, j + 1, Q0, C0, gamma, marks).C, ep[j].state, ep[j].action) + 1.0 >= 1.0
  {
    OnPassCounts(ep, j + 1, Q0, C0, gamma, marks, ep[j].state, ep[j].action);
  }

  /** A pair whose count was 0 takes the return of its step as its value at its first update
      (the newest marked occurrence, since the pass walks backwards), and its count becomes 1. */
  lemma OnPassFreshCount<S>(ep: seq<Step<S>>, k: int, Q0: Table<S>, C0: Table<S>, gamma: real,
                            marks: seq<bool>, s: S, a: int)
    requires |marks| == |ep| && 0 <= k < |ep| && Fits(ep, Q0) && Fits(ep, C0)
    requires marks[k] && SamePair(ep[k], s, a) && Updates(ep, marks, k + 1, s, a) == 0
    requires Get(C0, s, a) == 0.0
    ensures Get(OnPass(ep, k, Q0, C0, gamma, marks).Q, s, a) == Return(ep, k, gamma)
    ensures Get(OnPass(ep, k, Q0, C0, gamma, marks).C, s, a) == 1.0
  {
    var acc := OnPass(ep, k + 1, Q0, C0, gamma, marks);
    OnPassShape(ep, k + 1, Q0, C0, gamma, marks);
    OnPassCounts(ep, k + 1, Q0, C0, gamma, marks, s, a);
    OnPassReturn(ep, k, Q0, C0, gamma, marks);
    var G := Discount(gamma, acc.G, ep[k].reward);
    var q := Get(acc.Q, s, a);
    assert Get(acc.C, s, a) == 0.0;
    assert Averaged(q, 1.0, G) == G;
    PutGet(acc.Q, s, a, Averaged(q, 1.0, G), s, a);
    PutGet(acc.C, s, a, 1.0, s, a);
  }

  /** Under the first-visit marks, at most one step of a pair is marked: its first occurrence. */
  lemma FirstMarkUnique<S>(ep: seq<Step<S>>, k: int, k': int, s: S, a: int)
    requires 0 <= k < |ep| && 0 <= k' < |ep|
    requires FirstMarks(ep)[k] && SamePair(ep[k], s, a) && FirstMarks(ep)[k'] && SamePair(ep[k'], s, a)
    ensures k == k'
  {
  }

  /** A pair used by some step has a first occurrence, at or before that step. */
  lemma {:induction false} FirstOccurrence<S>(ep: seq<Step<S>>, k: int, s: S, a: int)
    requires 0 <= k < |ep| && SamePair(ep[k], s, a)
    ensures exists f :: 0 <= f <= k && FirstMarks(ep)[f] && SamePair(ep[f], s, a)
    decreases k
  {
    if !IsFirst(ep, k) {
      var j :| 0 <= j < k && SamePair(ep[j], ep[k].state, ep[k].action);
      FirstOccurrence(ep, j, s, a);
    } else {
      assert FirstMarks(ep)[k];
    }
  }

  /** From index j on, the updates of a pair whose only marked step is f number one if j <= f,
      and none otherwise. */
  lemma {:induction false} UpdatesOnlyAt<S>(ep: seq<Step<S>>, marks: seq<bool>, j: int, f: int, s: S, a: int)
    requires |marks| == |ep| && 0 <= j <= |ep| && 0 <= f < |ep|
    requires forall k :: 0 <= k < |ep| && marks[k] && SamePair(ep[k], s, a) ==> k == f
    requires marks[f] && SamePair(ep[f], s, a)
    ensures Updates(ep, marks, j, s, a) == if j <= f then 1 else 0
    decreases |ep| - j
  {
    if j < |ep| {
      UpdatesOnlyAt(ep, marks, j + 1, f, s, a);
    }
  }

  /** Without marked steps of a pair from index j on, it gets no update. */
  lemma {:induction false} UpdatesNone<S>(ep: seq<Step<S>>, marks: seq<bool>, j: int, s: S, a: int)
    requires |marks| == |ep| && 0 <= j <= |ep|
    requires forall k :: j <= k < |ep| ==> !(marks[k] && SamePair(ep[k], s, a))
    ensures Updates(ep, marks, j, s, a) == 0
    decreases |ep| - j
  {
    if j < |ep| {
      UpdatesNone(ep, marks, j + 1, s, a);
    }
  }

  /** First visit: each pair of the episode is updated exactly once, any other pair never. */
  lemma FirstVisitOnce<S>(ep: seq<Step<S>>, s: S, a: int)
    ensures Updates(ep, FirstMarks(ep), 0, s, a) == if Occurs(ep, s, a) then 1 else 0
  {
    var marks := FirstMarks(ep);
    if Occurs(ep, s, a) {
      var k :| 0 <= k < |ep| && SamePair(ep[k], s, a);
      FirstOccurrence(ep, k, s, a);
      var f :| 0 <= f <= k && marks[f] && SamePair(ep[f], s, a);
      forall k' | 0 <= k' < |ep| && marks[k'] && SamePair(ep[k'], s, a)
        ensures k' == f
      {
        FirstMarkUnique(ep, k', f, s, a);
      }
      UpdatesOnlyAt(ep, marks, 0, f, s, a);
    } else {
      UpdatesNone(ep, marks, 0, s, a);
    }
  }

  /** Every visit: each pair is updated once per occurrence. */
  lemma {:induction false} EveryVisitCounts<S>(ep: seq<Step<S>>, j: int, s: S, a: int)
    requires 0 <= j <= |ep|
    ensures Updates(ep, AllMarks(|ep|), j, s, a) == Occurrences(ep, j, s, a)
    decreases |ep| - j
  {
    if j < |ep| {
      EveryVisitCounts(ep, j + 1, s, a);
    }
  }

  /** No (state, action) pair occurs twice in the episode. */
  ghost predicate NoRepeats<S>(ep: seq<Step<S>>)
  {
    forall i, j :: 0 <= i < j < |ep| ==> !SamePair(ep[i], ep[j].state, ep[j].action)
  }

  /** Without repeated pairs every step is a first visit, so both on-policy variants make the same pass. */
  lemma VariantsAgree<S>(ep: seq<Step<S>>, Q0: Table<S>, C0: Table<S>, gamma: real)
    requires NoRepeats(ep)
    ensures FirstMarks(ep) == AllMarks(|ep|)
    ensures OnPass(ep, 0, Q0, C0, gamma, FirstMarks(ep)) == OnPass(ep, 0, Q0, C0, gamma, AllMarks(|ep|))
  {
    forall k | 0 <= k < |ep|
      ensures FirstMarks(ep)[k] == AllMarks(|ep|)[k]
    {
      assert IsFirst(ep, k);
    }
  }

  /** A pair with occurrences from index j on occurs at some index from j on. */
  lemma {:induction false} OccurrencesOccur<S>(ep: seq<Step<S>>, j: int, s: S, a: int)
    requires 0 <= j <= |ep| && Occurrences(ep, j, s, a) > 0
    ensures exists k :: j <= k < |ep| && SamePair(ep[k], s, a)
    decreases |ep| - j
  {
    if !SamePair(ep[j], s, a) {
      OccurrencesOccur(ep, j + 1, s, a);
    }
  }

  /** With a pair repeated, the two variants differ: first visit updates it once, every visit once per
      occurrence. */
  lemma VariantsDiffer<S>(ep: seq<Step<S>>, s: S, a: int)
    requires Occurrences(ep, 0, s, a) >= 2
    ensures Updates(ep, FirstMarks(ep), 0, s, a) == 1 < Updates(ep, AllMarks(|ep|), 0, s, a)
  {
    OccurrencesOccur(ep, 0, s, a);
    FirstVisitOnce(ep, s, a);
    EveryVisitCounts(ep, 0, s, a);
  }

  /** One backward step of an on-policy pass, in the loop's terms: the entries the step reads exist,
      and the pass one index further back holds the loop's new values. */
  lemma OnIteration<S>(ep: seq<Step<S>>, j: int, Q0: Table<S>, C0: Table<S>, gamma: real, marks: seq<bool>,
                       G: real, Qr: Table<S>, Cr: Table<S>)
    requires |marks| == |ep| && 0 < j <= |ep| && Fits(ep, Q0) && Fits(ep, C0)
    requires OnPass(ep, j, Q0, C0, gamma, marks) == OnAcc(G, Qr, Cr)
    ensures var s, a := ep[j - 1].state, ep[j - 1].action;
            var G' := Discount(gamma, G, ep[j - 1].reward);
            && Indexes(Qr, s, a) && Indexes(Cr, s, a)
            && (!marks[j - 1] ==> OnPass(ep, j - 1, Q0, C0, gamma, marks) == OnAcc(G', Qr, Cr))
            && (marks[j - 1] ==>
                  OnPass(ep, j - 1, Q0, C0, gamma, marks)
                    == OnAcc(G', Put(Qr, s, a, Averaged(Qr[s][a], Cr[s][a] + 1.0, G')),
                             Put(Cr, s, a, Cr[s][a] + 1.0)))
  {
    OnPassShape(ep, j, Q0, C0, gamma, marks);
  }

  /** The forward pass of `OnPolicyFirstVisitMCControl`: pairs each step with whether its (state, action)
      pair is new to the `visited` set, which is the first-occurrence test. */
  method MarkFirstVisits<S(==)>(episode: seq<Step<S>>) returns (xEpisode: seq<(Step<S>, bool)>)
    ensures |xEpisode| == |episode|
    ensures forall k :: 0 <= k < |episode| ==> xEpisode[k] == (episode[k], FirstMarks(episode)[k])
  {
    var visited: set<(S, int)> := {};
    xEpisode := [];
    var i := 0;
    while i < |episode|
      invariant 0 <= i <= |episode|
      invariant visited == Visited(episode, i)
      invariant |xEpisode| == i
      invariant forall k :: 0 <= k < i ==> xEpisode[k] == (episode[k], FirstMarks(episode)[k])
    {
      var e := episode[i];
      VisitedIsFirst(episode, i);
      var isFirst := (e.state, e.action) !in visited;
      if isFirst {
        visited := visited + {(e.state, e.action)};
      }
      xEpisode := xEpisode + [(e, isFirst)];
      i := i + 1;
    }
  }

  /** `OnPolicyFirstVisitMCControl`: marks the first visits in a forward pass, then walks the episode
      backwards updating the counts and means of those steps only. It always reports "not converged". */
  method OnPolicyFirstVisitMCControl<S(==)>(episode: seq<Step<S>>, Q: ValueTable<S>, C: ValueTable<S>, gamma: real)
    returns (converged: bool)
    requires Q != C && Fits(episode, Q.rows) && Fits(episode, C.rows) && CountsNonNegative(episode, C.rows)
    modifies Q, C
    ensures var f := OnPass(episode, 0, old(Q.rows), old(C.rows), gamma, FirstMarks(episode));
            Q.rows == f.Q && C.rows == f.C
    ensures !converged
  {
    var xEpisode := MarkFirstVisits(episode);
    converged := false;
    ghost var marks := FirstMarks(episode);
    ghost var Q0, C0 := Q.rows, C.rows;
    var G := 0.0;
    var j := |xEpisode|;
    while j > 0
      invariant 0 <= j <= |episode|
      invariant OnPass(episode, j, Q0, C0, gamma, marks) == OnAcc(G, Q.rows, C.rows)
    {
      var (e, isFirst) := xEpisode[j - 1];
      assert e == episode[j - 1] && isFirst == marks[j - 1];
      OnIteration(episode, j, Q0, C0, gamma, marks, G, Q.rows, C.rows);
      j := j - 1;
      G := Discount(gamma, G, e.reward);
      if !isFirst {
        continue;
      }
      var c := C.rows[e.state][e.action] + 1.0;
      C.rows := Put(C.rows, e.state, e.action, c);
      Q.rows := Put(Q.rows, e.state, e.action, Averaged(Q.rows[e.state][e.action], c, G));
    }
  }

  /** `OnPolicyEveryVisitMCControl`: walks the episode backwards updating the count and mean of every
      step. It always reports "not converged". */
  method OnPolicyEveryVisitMCControl<S(==)>(episode: seq<Step<S>>, Q: ValueTable<S>, C: ValueTable<S>, gamma: real)
    returns (converged: bool)
    requires Q != C && Fits(episode, Q.rows) && Fits(episode, C.rows) && CountsNonNegative(episode, C.rows)
    modifies Q, C
    ensures var f := OnPass(episode, 0, old(Q.rows), old(C.rows), gamma, AllMarks(|episode|));
            Q.rows == f.Q && C.rows == f.C
    ensures !converged
  {
    converged := false;
    ghost var marks := AllMarks(|episode|);
    ghost var Q0, C0 := Q.rows, C.rows;
    var G := 0.0;
    var j := |episode|;
    while j > 0
      invariant 0 <= j <= |episode|
      invariant OnPass(episode, j, Q0, C0, gamma, marks) == OnAcc(G, Q.rows, C.rows)
    {
      var e := episode[j - 1];
      OnIteration(episode, j, Q0, C0, gamma, marks, G, Q.rows, C.rows);
      j := j - 1;
      G := Discount(gamma, G, e.reward);
      var c := C.rows[e.state][e.action] + 1.0;
      C.rows := Put(C.rows, e.state, e.action, c);
      Q.rows := Put(Q.rows, e.state, e.action, Averaged(Q.rows[e.state][e.action], c, G));
    }
  }

  // ---------------------------------------------------------------------------------------------
  // The episode-by-episode driver
  // ---------------------------------------------------------------------------------------------

  /** How many consecutive "converged" results end the learning. */
  const ConvergenceStreak := 500

  /** One call of the learning method: the episode it was given, the episode number and its answer. */
  datatype Call<S> = Call(episode: seq<Step<S>>, episodeNo: int, result: bool)

  /** The loop variables of `learnByEpisode`: the episode being collected, the streak counter, the calls
      made so far and whether the loop has left through its convergence break. */
  datatype LearnAcc<S> = LearnAcc(episode: seq<Step<S>>, convCount: nat, calls: seq<Call<S>>, done: bool)

  /** The (state, action, reward) triple of a record. */
  function StepOf<S>(r: Record<S>): Step<S>
  {
    Step(r.state, r.action, r.reward)
  }

  /** One iteration of the driver on record r; e is the episode number `episode_i - 1` after r. */
  function LearnStep<S>(acc: LearnAcc<S>, r: Record<S>, e: int, learn: (seq<Step<S>>, int) -> bool): LearnAcc<S>
  {
    if acc.done then acc
    else
      var ep := acc.episode + [StepOf(r)];
      if !r.isTerminal then LearnAcc(ep, acc.convCount, acc.calls, false)
      else
        var ok := learn(ep, e);
        var count := if ok then acc.convCount + 1 else 0;
        var done := count >= ConvergenceStreak;
        LearnAcc(if done then ep else [], count, acc.calls + [Call(ep, e, ok)], done)
  }

  /** The driver's loop variables after the records rs. */
  function Learn<S>(rs: seq<Record<S>>, learn: (seq<Step<S>>, int) -> bool): LearnAcc<S>
  {
    if rs == [] then LearnAcc([], 0, [], false)
    else LearnStep(Learn(rs[..|rs| - 1], learn), rs[|rs| - 1], CountTerminal(rs), learn)
  }

  /** The complete episodes of rs: the runs of records up to and including each terminal one. */
  function Episodes<S>(rs: seq<Record<S>>): seq<seq<Step<S>>>
  {
    if rs == [] then []
    else if rs[|rs| - 1].isTerminal then Episodes(rs[..|rs| - 1]) + [Pending(rs[..|rs| - 1]) + [StepOf(rs[|rs| - 1])]]
    else Episodes(rs[..|rs| - 1])
  }

  /** The steps of the records after the last terminal one of rs. */
  function Pending<S>(rs: seq<Record<S>>): seq<Step<S>>
  {
    if rs == [] then []
    else if rs[|rs| - 1].isTerminal then []
    else Pending(rs[..|rs| - 1]) + [StepOf(rs[|rs| - 1])]
  }

  /** How many results at the end of calls are "converged". */
  function Streak<S>(calls: seq<Call<S>>): nat
  {
    if calls == [] || !calls[|calls| - 1].result then 0 else Streak(calls[..|calls| - 1]) + 1
  }

  /** No proper prefix of rs had already reached the convergence break. */
  ghost predicate NoEarlierStop<S>(rs: seq<Record<S>>, learn: (seq<Step<S>>, int) -> bool)
  {
    forall j :: 0 <= j < |rs| ==> !Learn(rs[..j], learn).done
  }

  lemma PrefixOfPrefix<S>(rs: seq<Record<S>>, j: int)
    requires 0 <= j < |rs|
    ensures rs[..|rs| - 1][..j] == rs[..j]
  {
  }

  /** The driver's loop variables after rs, up to the convergence break: one call of the learning method
      per terminal record, with the complete episodes of the stream in order, numbered 1, 2, ...; the
      episode being collected holds the steps since the last terminal record; the streak counter is the
      number of trailing "converged" answers, and the break has happened exactly when it reaches 500. */
  ghost predicate Segmented<S>(rs: seq<Record<S>>, learn: (seq<Step<S>>, int) -> bool)
  {
    var acc := Learn(rs, learn);
    && |acc.calls| == |Episodes(rs)| == CountTerminal(rs)
    && (forall i :: 0 <= i < |acc.calls| ==>
          && acc.calls[i].episode == Episodes(rs)[i]
          && acc.calls[i].episodeNo == i + 1
          && acc.calls[i].result == learn(Episodes(rs)[i], i + 1))
    && (!acc.done ==> acc.episode == Pending(rs))
    && acc.convCount == Streak(acc.calls)
    && (acc.done <==> acc.convCount >= ConvergenceStreak)
  }

  /** A terminal record after a prefix the driver has not stopped on: one more call, with the pending
      steps and the record's own as its episode. */
  lemma SegmentsTerminal<S>(init: seq<Record<S>>, r: Record<S>, learn: (seq<Step<S>>, int) -> bool)
    requires Segmented(init, learn) && !Learn(init, learn).done && r.isTerminal
    ensures Segmented(init + [r], learn)
  {
    var rs := init + [r];
    assert rs[..|rs| - 1] == init;
    CountTerminalSnoc(init, r);
    var prev := Learn(init, learn);
    var acc := Learn(rs, learn);
    assert acc.calls == prev.calls + [Call(Pending(init) + [StepOf(r)], CountTerminal(rs), acc.calls[|acc.calls| - 1].result)];
    assert acc.calls[..|acc.calls| - 1] == prev.calls;
  }

  /** A non-terminal record after a prefix the driver has not stopped on: the calls are unchanged and the
      record's step joins the pending episode. */
  lemma SegmentsPending<S>(init: seq<Record<S>>, r: Record<S>, learn: (seq<Step<S>>, int) -> bool)
    requires Segmented(init, learn) && !Learn(init, learn).done && !r.isTerminal
    ensures Segmented(init + [r], learn)
  {
    var rs := init + [r];
    assert rs[..|rs| - 1] == init;
    CountTerminalSnoc(init, r);
  }

  /** Up to the convergence break the driver's loop variables are as `Segmented` describes. */
  lemma {:induction false} LearnSegments<S>(rs: seq<Record<S>>, learn: (seq<Step<S>>, int) -> bool)
    requires NoEarlierStop(rs, learn)
    ensures Segmented(rs, learn)
    decreases |rs|
  {
    if rs != [] {
      var init := rs[..|rs| - 1];
      var r := rs[|rs| - 1];
      assert NoEarlierStop(init, learn) by {
        forall j | 0 <= j < |init|
          ensures !Learn(init[..j], learn).done
        {
          PrefixOfPrefix(rs, j);
        }
      }
      LearnSegments(init, learn);
      assert rs == init + [r];
      if r.isTerminal {
        SegmentsTerminal(init, r, learn);
      } else {
        SegmentsPending(init, r, learn);
      }
    }
  }

  /** Every complete episode is non-empty, which is why the `len(episode) == 0` exit never fires. */
  lemma {:induction false} EpisodesNonEmpty<S>(rs: seq<Record<S>>)
    ensures forall i :: 0 <= i < |Episodes(rs)| ==> |Episodes(rs)[i]| > 0
    decreases |rs|
  {
    if rs != [] {
      EpisodesNonEmpty(rs[..|rs| - 1]);
    }
  }

  /** `learnByEpisode` on a generator (restarted by the `for` loop) and a learning method, for at most
      `fuel` records: returns the calls it made and whether it stopped on convergence. */
  method LearnByEpisode<S(0)>(sequence: SequenceGenerator<S>, learnMethod: (seq<Step<S>>, int) -> bool,
                              fuel: nat)
    returns (calls: seq<Call<S>>, converged: bool)
    modifies sequence
    ensures sequence.Valid() && sequence.started && |sequence.trace| <= fuel
    ensures var acc := Learn(sequence.trace, learnMethod);
            calls == acc.calls && converged == acc.done
    ensures NoEarlierStop(sequence.trace, learnMethod)
    ensures !converged && |sequence.trace| < fuel ==> Exhausted(sequence.episodeImax, sequence.episodeI)
  {
    sequence.Iter();
    var convCount := 0;
    var episode: seq<Step<S>> := [];
    calls := [];
    converged := false;
    var pulled := 0;
    while pulled < fuel
      invariant sequence.Valid() && sequence.started
      invariant pulled == |sequence.trace| <= fuel
      invariant Learn(sequence.trace, learnMethod) == LearnAcc(episode, convCount, calls, false)
      invariant NoEarlierStop(sequence.trace, learnMethod)
      invariant !converged
      decreases fuel - pulled
    {
      ghost var before := sequence.trace;
      var next := sequence.Next();
      if next.None? {
        return;
      }
      var r := next.value;
      pulled := pulled + 1;
      assert sequence.trace[..|sequence.trace| - 1] == before;
      assert NoEarlierStop(sequence.trace, learnMethod) by {
        forall j | 0 <= j < |sequence.trace|
          ensures !Learn(sequence.trace[..j], learnMethod).done
        {
          if j < |before| {
            assert sequence.trace[..j] == before[..j];
          }
        }
      }
      episode := episode + [StepOf(r)];
      if !r.isTerminal {
        continue;
      }
      if |episode| == 0 {
        assert false;
        break;
      }
      var ok := learnMethod(episode, sequence.episodeI - 1);
      calls := calls + [Call(episode, sequence.episodeI - 1, ok)];
      if ok {
        convCount := convCount + 1;
      } else {
        convCount := 0;
      }
      if convCount >= ConvergenceStreak {
        converged := true;
        return;
      }
      episode := [];
    }
  }
}
