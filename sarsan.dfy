/** n-step SARSA over a stream of generator records. */
module SARSAn {
  import opened Tables
  import opened SeqGen

  /** `sys.maxsize` on a 64-bit build: the episode length before the terminal record is seen. */
  const MaxSize := 0x7fff_ffff_ffff_ffff

  /** `range(50000)`: the most episodes one run processes. */
  const EpisodeLimit := 50000

  /** One `q_learn(state, action, G)` call. */
  datatype Update<S> = Update(state: S, action: int, G: real)

  /** The learner behind the two callbacks: `q_eval` reads the learner state, `q_learn` produces the next one. */
  datatype Learner<!L, -S> = Learner(eval: (L, S, int) -> real, learn: (L, S, int, real) -> L)

  /** The calls made so far and the learner state they leave behind. */
  datatype Outcome<L, S> = Outcome(updates: seq<Update<S>>, state: L)

  function Min(x: int, y: int): int
  {
    if x <= y then x else y
  }

  function Pow(x: real, k: nat): real
  {
    if k == 0 then 1.0 else x * Pow(x, k - 1)
  }

  /** `[gamma**i for i in range(0, n+1)]`. */
  function GammaPowered(gamma: real, n: nat): seq<real>
  {
    seq(n + 1, i requires 0 <= i <= n => Pow(gamma, i))
  }

  /** The table starts at 1 and each entry is gamma times the one before. */
  lemma GammaPoweredRatio(gamma: real, n: nat, i: int)
    requires 0 <= i < n
    ensures |GammaPowered(gamma, n)| == n + 1 && GammaPowered(gamma, n)[0] == 1.0
    ensures GammaPowered(gamma, n)[i + 1] == gamma * GammaPowered(gamma, n)[i]
  {
  }

  /** `sum([w[j]*h[tau+j].reward for j in range(m)])`, summed left to right. */
  function WeightedRewards<S>(w: seq<real>, h: seq<Record<S>>, tau: int, m: int): real
    requires 0 <= m <= |w| && 0 <= tau && tau + m <= |h|
    decreases m
  {
    if m == 0 then 0.0 else WeightedRewards(w, h, tau, m - 1) + w[m - 1] * h[tau + m - 1].reward
  }

  /** r_tau + gamma r_{tau+1} + ... + gamma^{m-1} r_{tau+m-1}: the discounted rewards of m steps from tau. */
  function Discounted<S>(h: seq<Record<S>>, tau: int, m: nat, gamma: real): real
    requires 0 <= tau && tau + m <= |h|
    decreases m
  {
    if m == 0 then 0.0 else h[tau].reward + gamma * Discounted(h, tau + 1, m - 1, gamma)
  }

  /** Weighting by the powers table gives the discounted rewards. */
  lemma {:induction false} WeightedIsDiscounted<S>(gamma: real, n: nat, h: seq<Record<S>>, tau: int, m: int)
    requires 0 <= m <= n + 1 && 0 <= tau && tau + m <= |h|
    ensures WeightedRewards(GammaPowered(gamma, n), h, tau, m) == Discounted(h, tau, m, gamma)
    decreases m
  {
    if m > 0 {
      WeightedIsDiscounted(gamma, n, h, tau, m - 1);
      DiscountedSnoc(h, tau, m - 1, gamma);
    }
  }

  /** Adding the step m of a window: the window of m + 1 steps is the one of m plus gamma^m r_{tau+m}. */
  lemma {:induction false} DiscountedSnoc<S>(h: seq<Record<S>>, tau: int, m: nat, gamma: real)
    requires 0 <= tau && tau + m + 1 <= |h|
    ensures Discounted(h, tau, m + 1, gamma) == Discounted(h, tau, m, gamma) + Pow(gamma, m) * h[tau + m].reward
    decreases m
  {
    if m > 0 {
      DiscountedSnoc(h, tau + 1, m - 1, gamma);
      calc {
        Discounted(h, tau, m + 1, gamma);
        h[tau].reward + gamma * Discounted(h, tau + 1, m, gamma);
        h[tau].reward + gamma * (Discounted(h, tau + 1, m - 1, gamma) + Pow(gamma, m - 1) * h[tau + m].reward);
        h[tau].reward + gamma * Discounted(h, tau + 1, m - 1, gamma) + gamma * Pow(gamma, m - 1) * h[tau + m].reward;
      }
    }
  }

  /** The first k updates of an episode whose records so far are h, with T its length (`MaxSize` while the
      terminal record has not been seen) can be computed from h alone. */
  predicate Readable(hlen: int, k: int, T: int, n: int)
  {
    0 <= k <= hlen <= T && (k == 0 || k - 1 + n < hlen || T == hlen)
  }

  /** The n-step target of update tau: the discounted rewards of the next min(n, T - tau) steps, plus
      gamma^n times the learner's value of step tau + n when that step is inside the episode. */
  function Target<L, S>(h: seq<Record<S>>, tau: int, T: int, n: nat, gamma: real, lr: Learner<L, S>, st: L): real
    requires n >= 1 && 0 <= tau < |h| <= T && (tau + n < |h| || T == |h|)
  {
    Discounted(h, tau, Min(n, T - tau), gamma)
      + if tau + n < T then Pow(gamma, n) * lr.eval(st, h[tau + n].state, h[tau + n].action) else 0.0
  }

  /** The first k updates of n-step SARSA on episode h, tau = 0, 1, ..., k - 1 in order, from learner state st0:
      update tau is for step tau's state and action, with the target computed from the learner state
      left by the updates before it. */
  function EpisodeRun<L, S>(h: seq<Record<S>>, k: int, T: int, n: nat, gamma: real, lr: Learner<L, S>, st0: L)
    : Outcome<L, S>
    requires n >= 1 && Readable(|h|, k, T, n)
    decreases k
  {
    if k == 0 then Outcome([], st0)
    else
      var o := EpisodeRun(h, k - 1, T, n, gamma, lr, st0);
      var tau := k - 1;
      var G := Target(h, tau, T, n, gamma, lr, o.state);
      Outcome(o.updates + [Update(h[tau].state, h[tau].action, G)], lr.learn(o.state, h[tau].state, h[tau].action, G))
  }

  /** The index of the first terminal record of rs at or after `from`, or |rs| when there is none. */
  function FirstTerminal<S>(rs: seq<Record<S>>, from: int): (e: int)
    requires 0 <= from <= |rs|
    ensures from <= e <= |rs|
    ensures e < |rs| ==> rs[e].isTerminal
    ensures forall i :: from <= i < e ==> !rs[i].isTerminal
    decreases |rs| - from
  {
    if from == |rs| || rs[from].isTerminal then from else FirstTerminal(rs, from + 1)
  }

  /** The result of a whole run: the calls, the final learner state, how many episodes were started and
      where in the stream the run stopped reading. */
  datatype RunOutcome<L, S> = RunOutcome(updates: seq<Update<S>>, state: L, episodes: nat, next: int)

  /** n-step SARSA from record `pos` on, for at most `left` more episodes: a complete episode runs through
      its terminal record and gets one update per record; an episode the stream ends inside gets the
      updates whose targets it could read, and ends the run. */
  function SarsaFrom<L, S>(rs: seq<Record<S>>, pos: int, left: nat, n: nat, gamma: real, lr: Learner<L, S>, st: L)
    : RunOutcome<L, S>
    requires n >= 1 && 0 <= pos <= |rs| < MaxSize
    decreases left
  {
    if left == 0 || pos == |rs| then RunOutcome([], st, 0, pos)
    else
      var e := FirstTerminal(rs, pos);
      if e == |rs| then
        var o := EpisodeRun(rs[pos..], if |rs| - pos > n then |rs| - pos - n else 0, MaxSize, n, gamma, lr, st);
        RunOutcome(o.updates, o.state, 1, |rs|)
      else
        var o := EpisodeRun(rs[pos..e + 1], e + 1 - pos, e + 1 - pos, n, gamma, lr, st);
        var rest := SarsaFrom(rs, e + 1, left - 1, n, gamma, lr, o.state);
        RunOutcome(o.updates + rest.updates, rest.state, rest.episodes + 1, rest.next)
  }

  /** A run that reads no record of the stream past its first terminal one at or after `from` meets
      that terminal record at index e exactly when the records from `from` up to e are non-terminal. */
  lemma FirstTerminalAt<S>(rs: seq<Record<S>>, from: int, e: int)
    requires 0 <= from <= e <= |rs|
    requires forall i :: from <= i < e ==> !rs[i].isTerminal
    requires e == |rs| || rs[e].isTerminal
    ensures FirstTerminal(rs, from) == e
  {
  }

  /** Update tau of a run is for step tau's state and action, and its target is computed from the
      learner state left by the updates before it; the run makes exactly k updates. */
  lemma {:induction false} EpisodeRunAt<L, S>(h: seq<Record<S>>, k: int, T: int, n: nat, gamma: real,
                                              lr: Learner<L, S>, st0: L, tau: int)
    requires n >= 1 && Readable(|h|, k, T, n) && 0 <= tau < k
    ensures Readable(|h|, tau, T, n)
    ensures var u := EpisodeRun(h, k, T, n, gamma, lr, st0).updates;
            && |u| == k
            && u[tau] == Update(h[tau].state, h[tau].action,
                                Target(h, tau, T, n, gamma, lr, EpisodeRun(h, tau, T, n, gamma, lr, st0).state))
    decreases k
  {
    if tau < k - 1 {
      EpisodeRunAt(h, k - 1, T, n, gamma, lr, st0, tau);
    } else {
      EpisodeRunCount(h, k - 1, T, n, gamma, lr, st0);
    }
  }

  /** A run of k updates makes k calls. */
  lemma {:induction false} EpisodeRunCount<L, S>(h: seq<Record<S>>, k: int, T: int, n: nat, gamma: real,
                                                 lr: Learner<L, S>, st0: L)
    requires n >= 1 && Readable(|h|, k, T, n)
    ensures |EpisodeRun(h, k, T, n, gamma, lr, st0).updates| == k
    decreases k
  {
    if k > 0 {
      EpisodeRunCount(h, k - 1, T, n, gamma, lr, st0);
    }
  }

  /** With n = 1 every target of a complete episode is one-step SARSA's: the reward plus gamma times the
      learner's value of the next step, and for the last step the reward alone. */
  lemma OneStep<L, S>(h: seq<Record<S>>, gamma: real, lr: Learner<L, S>, st0: L, tau: int)
    requires 0 <= tau < |h|
    ensures Readable(|h|, |h|, |h|, 1) && Readable(|h|, tau, |h|, 1)
    ensures |EpisodeRun(h, |h|, |h|, 1, gamma, lr, st0).updates| == |h|
    ensures var st := EpisodeRun(h, tau, |h|, 1, gamma, lr, st0).state;
            EpisodeRun(h, |h|, |h|, 1, gamma, lr, st0).updates[tau].G
              == h[tau].reward + if tau < |h| - 1 then gamma * lr.eval(st, h[tau + 1].state, h[tau + 1].action) else 0.0
  {
    EpisodeRunAt(h, |h|, |h|, 1, gamma, lr, st0, tau);
    assert Discounted(h, tau + 1, 0, gamma) == 0.0;
    assert Pow(gamma, 1) == gamma;
  }

  /** The discounted rewards of a window do not depend on records after it. */
  lemma {:induction false} DiscountedExtend<S>(h: seq<Record<S>>, r: Record<S>, tau: int, m: nat, gamma: real)
    requires 0 <= tau && tau + m <= |h|
    ensures Discounted(h + [r], tau, m, gamma) == Discounted(h, tau, m, gamma)
    decreases m
  {
    if m > 0 {
      DiscountedExtend(h, r, tau + 1, m - 1, gamma);
      assert (h + [r])[tau] == h[tau];
    }
  }

  /** Before the terminal record is seen, a record pulled after the ones the first k updates read
      changes none of them. */
  lemma {:induction false} EpisodeRunExtend<L, S>(h: seq<Record<S>>, r: Record<S>, k: int, T: int, n: nat,
                                                  gamma: real, lr: Learner<L, S>, st0: L)
    requires n >= 1 && Readable(|h|, k, T, n) && |h| < T
    ensures Readable(|h| + 1, k, T, n)
    ensures EpisodeRun(h + [r], k, T, n, gamma, lr, st0) == EpisodeRun(h, k, T, n, gamma, lr, st0)
    decreases k
  {
    if k > 0 {
      EpisodeRunExtend(h, r, k - 1, T, n, gamma, lr, st0);
      var tau := k - 1;
      var st := EpisodeRun(h, k - 1, T, n, gamma, lr, st0).state;
      DiscountedExtend(h, r, tau, Min(n, T - tau), gamma);
      assert (h + [r])[tau] == h[tau];
      assert tau + n < T ==> (h + [r])[tau + n] == h[tau + n];
      assert Target(h + [r], tau, T, n, gamma, lr, st) == Target(h, tau, T, n, gamma, lr, st);
    }
  }

  /** Updates whose windows end before the end of the episode do not depend on where it ends. */
  lemma {:induction false} EpisodeRunRetarget<L, S>(h: seq<Record<S>>, k: int, T: int, T': int, n: nat,
                                                    gamma: real, lr: Learner<L, S>, st0: L)
    requires n >= 1 && |h| <= T && |h| <= T' && 0 <= k <= |h| && (k == 0 || k - 1 + n < |h|)
    ensures Readable(|h|, k, T, n) && Readable(|h|, k, T', n)
    ensures EpisodeRun(h, k, T, n, gamma, lr, st0) == EpisodeRun(h, k, T', n, gamma, lr, st0)
    decreases k
  {
    if k > 0 {
      EpisodeRunRetarget(h, k - 1, T, T', n, gamma, lr, st0);
      var tau := k - 1;
      var st := EpisodeRun(h, k - 1, T, n, gamma, lr, st0).state;
      assert Min(n, T - tau) == n == Min(n, T' - tau);
      assert Target(h, tau, T, n, gamma, lr, st) == Target(h, tau, T', n, gamma, lr, st);
    }
  }

  /** The n-step return the loop computes for step tau: the weighted rewards of steps tau .. tau + n - 1 (or up
      to the end of the episode), plus the discounted value of the latest record's pair while the episode
      goes on past tau + n. It is the target of update tau. */
  method NStepReturn<L, S>(history: seq<Record<S>>, tau: int, T: int, n: nat, gamma: real, gammaPowered: seq<real>,
                           qEval: (L, S, int) -> real, ghost lr: Learner<L, S>, learner: L, latest: Record<S>)
    returns (G: real)
    requires n >= 1 && 0 <= tau < |history| <= T && (tau + n < |history| || T == |history|)
    requires gammaPowered == GammaPowered(gamma, n) && lr.eval == qEval
    requires tau + n < T ==> latest == history[tau + n]
    ensures G == Target(history, tau, T, n, gamma, lr, learner)
  {
    WeightedIsDiscounted(gamma, n, history, tau, Min(n, T - tau));
    G := WeightedRewards(gammaPowered, history, tau, Min(n, T - tau));
    if tau + n < T {
      assert gammaPowered[n] == Pow(gamma, n);
      G := G + gammaPowered[n] * qEval(learner, latest.state, latest.action);
    }
  }

  /** A run stops at the episode limit or at the end of the stream: it starts at most `left` episodes, reads
      the stream up to `next`, and leaves records unread only once the episode limit is reached. */
  lemma {:induction false} SarsaBounds<L, S>(rs: seq<Record<S>>, pos: int, left: nat, n: nat, gamma: real,
                                             lr: Learner<L, S>, st: L)
    requires n >= 1 && 0 <= pos <= |rs| < MaxSize
    ensures var o := SarsaFrom(rs, pos, left, n, gamma, lr, st);
            && o.episodes <= left
            && pos <= o.next <= |rs|
            && (o.next < |rs| ==> o.episodes == left)
    decreases left
  {
    if left > 0 && pos < |rs| {
      var e := FirstTerminal(rs, pos);
      if e < |rs| {
        var o := EpisodeRun(rs[pos..e + 1], e + 1 - pos, e + 1 - pos, n, gamma, lr, st);
        SarsaBounds(rs, e + 1, left - 1, n, gamma, lr, o.state);
      }
    }
  }

  /** The first episode of a run from `pos`, when the stream has a terminal record at e: one update per
      record pos..e, in order, each for its record's state and action. */
  lemma SarsaFirstEpisode<L, S>(rs: seq<Record<S>>, pos: int, left: nat, n: nat, gamma: real,
                                lr: Learner<L, S>, st: L, i: int)
    requires n >= 1 && 0 <= pos <= |rs| < MaxSize && left > 0
    requires FirstTerminal(rs, pos) < |rs| && 0 <= i <= FirstTerminal(rs, pos) - pos
    ensures var u := SarsaFrom(rs, pos, left, n, gamma, lr, st).updates;
            i < |u| && u[i].state == rs[pos + i].state && u[i].action == rs[pos + i].action
  {
    var e := FirstTerminal(rs, pos);
    var h := rs[pos..e + 1];
    EpisodeRunAt(h, e + 1 - pos, e + 1 - pos, n, gamma, lr, st, i);
  }

  /** A run from the start of a complete episode: that episode's updates, then the run from the record
      after its terminal one, with one episode fewer. */
  lemma SarsaComplete<L, S>(rs: seq<Record<S>>, start: int, pos: int, left: nat, n: nat, gamma: real,
                            lr: Learner<L, S>, st0: L, o: Outcome<L, S>)
    requires n >= 1 && 0 <= start < pos <= |rs| < MaxSize && left > 0 && FirstTerminal(rs, start) == pos - 1
    requires Readable(pos - start, pos - start, pos - start, n)
    requires EpisodeRun(rs[start..pos], pos - start, pos - start, n, gamma, lr, st0) == o
    ensures var rest := SarsaFrom(rs, pos, left - 1, n, gamma, lr, o.state);
            var whole := SarsaFrom(rs, start, left, n, gamma, lr, st0);
            whole.updates == o.updates + rest.updates && whole.state == rest.state
  {
    assert rs[start..pos - 1 + 1] == rs[start..pos];
  }

  /** A run from the start of an episode the stream ends inside: the updates that episode could make. */
  lemma SarsaPartial<L, S>(rs: seq<Record<S>>, start: int, k: int, left: nat, n: nat, gamma: real,
                           lr: Learner<L, S>, st0: L, o: Outcome<L, S>)
    requires n >= 1 && 0 <= start < |rs| < MaxSize && left > 0 && FirstTerminal(rs, start) == |rs|
    requires k == if |rs| - start > n then |rs| - start - n else 0
    requires Readable(|rs| - start, k, MaxSize, n)
    requires EpisodeRun(rs[start..], k, MaxSize, n, gamma, lr, st0) == o
    ensures var whole := SarsaFrom(rs, start, left, n, gamma, lr, st0);
            whole.updates == o.updates && whole.state == o.state
  {
  }

  /** The outer loop's state: the updates made so far, followed by those of the run from `pos` with `left`
      episodes to go, are the whole run's, which ends in the same learner state. */
  ghost predicate RunLeft<L, S>(rs: seq<Record<S>>, pos: int, left: nat, n: nat, gamma: real, lr: Learner<L, S>,
                                acc: seq<Update<S>>, st: L, total: RunOutcome<L, S>)
  {
    && n >= 1 && 0 <= pos <= |rs| < MaxSize
    && var rest := SarsaFrom(rs, pos, left, n, gamma, lr, st);
       acc + rest.updates == total.updates && rest.state == total.state
  }

  /** A complete episode from `start`: its terminal record is at `pos - 1`, and `o` is the run of all its
      updates. */
  ghost predicate WholeEpisode<L, S>(rs: seq<Record<S>>, start: int, pos: int, n: nat, gamma: real,
                                     lr: Learner<L, S>, st0: L, o: Outcome<L, S>)
  {
    && n >= 1 && 0 <= start < pos <= |rs| && FirstTerminal(rs, start) == pos - 1
    && Readable(pos - start, pos - start, pos - start, n)
    && EpisodeRun(rs[start..pos], pos - start, pos - start, n, gamma, lr, st0) == o
  }

  /** An episode from `start` that the stream ends inside: `o` is the run of the updates whose targets
      could be read. */
  ghost predicate CutEpisode<L, S>(rs: seq<Record<S>>, start: int, n: nat, gamma: real, lr: Learner<L, S>,
                                   st0: L, o: Outcome<L, S>)
  {
    && n >= 1 && 0 <= start < |rs| && FirstTerminal(rs, start) == |rs|
    && var k := if |rs| - start > n then |rs| - start - n else 0;
       && Readable(|rs| - start, k, MaxSize, n)
       && EpisodeRun(rs[start..], k, MaxSize, n, gamma, lr, st0) == o
  }

  /** A complete episode moves the outer loop on to the record after its terminal one. */
  lemma RunOn<L, S>(rs: seq<Record<S>>, start: int, pos: int, left: nat, n: nat, gamma: real,
                    lr: Learner<L, S>, acc: seq<Update<S>>, st0: L, o: Outcome<L, S>, total: RunOutcome<L, S>)
    requires RunLeft(rs, start, left, n, gamma, lr, acc, st0, total)
    requires left > 0 && WholeEpisode(rs, start, pos, n, gamma, lr, st0, o)
    ensures RunLeft(rs, pos, left - 1, n, gamma, lr, acc + o.updates, o.state, total)
  {
    SarsaComplete(rs, start, pos, left, n, gamma, lr, st0, o);
    assert (acc + o.updates) + SarsaFrom(rs, pos, left - 1, n, gamma, lr, o.state).updates
        == acc + (o.updates + SarsaFrom(rs, pos, left - 1, n, gamma, lr, o.state).updates);
  }

  /** An episode the stream ends inside completes the run. */
  lemma RunCut<L, S>(rs: seq<Record<S>>, start: int, left: nat, n: nat, gamma: real,
                     lr: Learner<L, S>, acc: seq<Update<S>>, st0: L, o: Outcome<L, S>, total: RunOutcome<L, S>)
    requires RunLeft(rs, start, left, n, gamma, lr, acc, st0, total)
    requires left > 0 && CutEpisode(rs, start, n, gamma, lr, st0, o)
    ensures acc + o.updates == total.updates && o.state == total.state
  {
    SarsaPartial(rs, start, if |rs| - start > n then |rs| - start - n else 0, left, n, gamma, lr, st0, o);
  }

  /** With no episode left, or the stream read to its end, the run is complete. */
  lemma RunStops<L, S>(rs: seq<Record<S>>, pos: int, left: nat, n: nat, gamma: real,
                       lr: Learner<L, S>, acc: seq<Update<S>>, st: L, total: RunOutcome<L, S>)
    requires RunLeft(rs, pos, left, n, gamma, lr, acc, st, total) && (left == 0 || pos == |rs|)
    ensures acc == total.updates && st == total.state
  {
    assert acc + [] == acc;
  }

  /** How many updates an episode has made at the top of iteration t of its loop: one per t >= n - 1. */
  function Done(t: int, n: int): int
  {
    if t - n + 1 > 0 then t - n + 1 else 0
  }

  /** The records an episode has pulled from the stream, starting at `start`: history, the latest record
      `step`, none of the earlier ones terminal, and, once T is known, exactly T of them with the last terminal. */
  ghost predicate Pulled<S>(rs: seq<Record<S>>, start: int, pos: int, history: seq<Record<S>>, step: Record<S>, T: int)
  {
    && 0 <= start < pos <= |rs| && history == rs[start..pos] && step == rs[pos - 1]
    && (forall i :: start <= i < pos - 1 ==> !rs[i].isTerminal)
    && (T != MaxSize ==> |history| == T && step.isTerminal)
  }

  /** The updates made so far are the first k of the run on history. */
  ghost predicate Made<L, S>(history: seq<Record<S>>, k: int, T: int, n: nat, gamma: real, lr: Learner<L, S>,
                             st0: L, us: seq<Update<S>>, st: L)
  {
    n >= 1 && Readable(|history|, k, T, n) && EpisodeRun(history, k, T, n, gamma, lr, st0) == Outcome(us, st)
  }

  /** The loop state at the top of iteration t. */
  ghost predicate Top<L, S>(rs: seq<Record<S>>, start: int, pos: int, history: seq<Record<S>>, step: Record<S>,
                            T: int, t: int, n: nat, gamma: real, lr: Learner<L, S>, st0: L, us: seq<Update<S>>, st: L)
  {
    && Pulled(rs, start, pos, history, step, T) && |rs| < MaxSize
    && (T == MaxSize ==> |history| == t + 1)
    && (T != MaxSize ==> T <= t <= T + n - 2)
    && Made(history, Done(t, n), T, n, gamma, lr, st0, us, st)
  }

  /** The loop state of iteration t after its pull (or terminal test): the record of step t + 1 has been
      pulled, or T is known. */
  ghost predicate Mid<L, S>(rs: seq<Record<S>>, start: int, pos: int, history: seq<Record<S>>, step: Record<S>,
                            T: int, t: int, n: nat, gamma: real, lr: Learner<L, S>, st0: L, us: seq<Update<S>>, st: L)
  {
    && Pulled(rs, start, pos, history, step, T) && |rs| < MaxSize
    && (T == MaxSize ==> |history| == t + 2)
    && (T != MaxSize ==> T <= t + 1 && t - n + 1 <= T - 1)
    && Made(history, Done(t, n), T, n, gamma, lr, st0, us, st)
  }

  /** Pulling a non-terminal episode's next record. */
  lemma Pull<L, S>(rs: seq<Record<S>>, start: int, pos: int, history: seq<Record<S>>, step: Record<S>, t: int,
                   n: nat, gamma: real, lr: Learner<L, S>, st0: L, us: seq<Update<S>>, st: L)
    requires Top(rs, start, pos, history, step, MaxSize, t, n, gamma, lr, st0, us, st)
    requires !step.isTerminal && pos < |rs|
    ensures Mid(rs, start, pos + 1, history + [rs[pos]], rs[pos], MaxSize, t, n, gamma, lr, st0, us, st)
  {
    SliceSnoc(rs, start, pos);
    EpisodeRunExtend(history, rs[pos], Done(t, n), MaxSize, n, gamma, lr, st0);
  }

  lemma SliceSnoc<S>(rs: seq<Record<S>>, a: int, b: int)
    requires 0 <= a <= b < |rs|
    ensures rs[a..b + 1] == rs[a..b] + [rs[b]]
  {
  }

  /** Seeing the terminal record at iteration t: the episode length becomes t + 1. */
  lemma Terminal<L, S>(rs: seq<Record<S>>, start: int, pos: int, history: seq<Record<S>>, step: Record<S>, t: int,
                       n: nat, gamma: real, lr: Learner<L, S>, st0: L, us: seq<Update<S>>, st: L)
    requires Top(rs, start, pos, history, step, MaxSize, t, n, gamma, lr, st0, us, st) && step.isTerminal
    ensures Mid(rs, start, pos, history, step, t + 1, t, n, gamma, lr, st0, us, st)
  {
    EpisodeRunRetarget(history, Done(t, n), MaxSize, t + 1, n, gamma, lr, st0);
  }

  /** Once T is known nothing is pulled. */
  lemma Known<L, S>(rs: seq<Record<S>>, start: int, pos: int, history: seq<Record<S>>, step: Record<S>, T: int,
                    t: int, n: nat, gamma: real, lr: Learner<L, S>, st0: L, us: seq<Update<S>>, st: L)
    requires Top(rs, start, pos, history, step, T, t, n, gamma, lr, st0, us, st) && t >= T
    ensures Mid(rs, start, pos, history, step, T, t, n, gamma, lr, st0, us, st)
  {
  }

  /** An update inside the loop: step tau = t - n + 1 of the episode, with the target computed as the loop
      does, extends the updates made so far by one. */
  lemma UpdateInLoop<L, S>(rs: seq<Record<S>>, start: int, pos: int, history: seq<Record<S>>, step: Record<S>,
                           T: int, t: int, n: nat, gamma: real, lr: Learner<L, S>, st0: L, us: seq<Update<S>>,
                           st: L, G: real)
    requires Mid(rs, start, pos, history, step, T, t, n, gamma, lr, st0, us, st) && t - n + 1 >= 0
    requires t - n + 1 < |history| && G == Target(history, t - n + 1, T, n, gamma, lr, st)
    ensures var h := history[t - n + 1];
            Made(history, t - n + 2, T, n, gamma, lr, st0, us + [Update(h.state, h.action, G)],
                 lr.learn(st, h.state, h.action, G))
  {
    assert Done(t, n) == t - n + 1;
  }

  /** With this loop's pull order, whenever the bootstrap applies (tau + n < T) the most recently pulled
      record is step tau + n of the episode, so `q_eval` reads the pair the n-step target needs. */
  lemma BootstrapRecord<L, S>(rs: seq<Record<S>>, start: int, pos: int, history: seq<Record<S>>, step: Record<S>,
                              T: int, t: int, n: nat, gamma: real, lr: Learner<L, S>, st0: L, us: seq<Update<S>>,
                              st: L)
    requires Mid(rs, start, pos, history, step, T, t, n, gamma, lr, st0, us, st)
    requires t - n + 1 >= 0 && t - n + 1 + n < T
    ensures t + 1 < |history| && step == history[t + 1]
  {
  }

  /** The update of iteration t, for step tau = t - n + 1 once tau >= 0: `q_learn` on step tau's state and
      action with its n-step return as target. With the updates made so far being the first tau of the
      episode's run, they become its first tau + 1. */
  method UpdateAt<L, S>(ghost rs: seq<Record<S>>, ghost start: int, ghost pos: int, history: seq<Record<S>>,
                        step: Record<S>, T: int, t: int, n: nat, gamma: real, gammaPowered: seq<real>,
                        qEval: (L, S, int) -> real, qLearn: (L, S, int, real) -> L, ghost st0: L,
                        us: seq<Update<S>>, st: L)
    returns (us': seq<Update<S>>, st': L)
    requires Mid(rs, start, pos, history, step, T, t, n, gamma, Learner(qEval, qLearn), st0, us, st)
    requires gammaPowered == GammaPowered(gamma, n)
    ensures t - n + 1 >= 0 ==> Made(history, t - n + 2, T, n, gamma, Learner(qEval, qLearn), st0, us', st')
    ensures t - n + 1 < 0 ==> us' == us && st' == st
  {
    ghost var lr := Learner(qEval, qLearn);
    var tau := t - n + 1;
    us', st' := us, st;
    if tau >= 0 {
      if tau + n < T {
        BootstrapRecord(rs, start, pos, history, step, T, t, n, gamma, lr, st0, us, st);
      }
      var G := NStepReturn(history, tau, T, n, gamma, gammaPowered, qEval, lr, st, step);
      var h := history[tau];
      UpdateInLoop(rs, start, pos, history, step, T, t, n, gamma, lr, st0, us, st, G);
      st' := qLearn(st, h.state, h.action, G);
      us' := us + [Update(h.state, h.action, G)];
    }
  }

  /** The end of an iteration that does not leave the loop: the state at the top of iteration t + 1. */
  lemma Advance<L, S>(rs: seq<Record<S>>, start: int, pos: int, history: seq<Record<S>>, step: Record<S>,
                      T: int, t: int, n: nat, gamma: real, lr: Learner<L, S>, st0: L,
                      us0: seq<Update<S>>, st0': L, us: seq<Update<S>>, st: L)
    requires Mid(rs, start, pos, history, step, T, t, n, gamma, lr, st0, us0, st0') && t - n + 1 != T - 1
    requires t - n + 1 >= 0 ==> Made(history, t - n + 2, T, n, gamma, lr, st0, us, st)
    requires t - n + 1 < 0 ==> us == us0 && st == st0'
    ensures Top(rs, start, pos, history, step, T, t + 1, n, gamma, lr, st0, us, st)
  {
  }

  /** The loop leaves after the update of the terminal step: the updates are the whole episode's. */
  lemma EpisodeEnd<L, S>(rs: seq<Record<S>>, start: int, pos: int, history: seq<Record<S>>, step: Record<S>,
                         T: int, t: int, n: nat, gamma: real, lr: Learner<L, S>, st0: L,
                         us0: seq<Update<S>>, st0': L, us: seq<Update<S>>, st: L)
    requires Mid(rs, start, pos, history, step, T, t, n, gamma, lr, st0, us0, st0') && t - n + 1 == T - 1
    requires Made(history, t - n + 2, T, n, gamma, lr, st0, us, st)
    ensures WholeEpisode(rs, start, pos, n, gamma, lr, st0, Outcome(us, st))
  {
    FirstTerminalAt(rs, start, pos - 1);
  }

  /** The stream ends inside the episode: the updates are those the partial episode could make. */
  lemma EpisodeCut<L, S>(rs: seq<Record<S>>, start: int, history: seq<Record<S>>, step: Record<S>, t: int,
                         n: nat, gamma: real, lr: Learner<L, S>, st0: L, us: seq<Update<S>>, st: L)
    requires Top(rs, start, |rs|, history, step, MaxSize, t, n, gamma, lr, st0, us, st) && !step.isTerminal
    ensures CutEpisode(rs, start, n, gamma, lr, st0, Outcome(us, st))
  {
    FirstTerminalAt(rs, start, |rs|);
    assert rs[start..] == history;
  }

  /** The body of one episode of `SARSAn`, after its first record (at index `start`) has been pulled: the
      `while True` loop that pulls records until the terminal one and makes one update per step of the
      episode. `stopped` says the stream ended inside the episode (the StopIteration that ends the run). */
  method Episode<L, S>(sequence: seq<Record<S>>, start: int, qEval: (L, S, int) -> real,
                       qLearn: (L, S, int, real) -> L, learner0: L, n: nat, gamma: real, gammaPowered: seq<real>)
    returns (pos: int, episodeUpdates: seq<Update<S>>, learner: L, stopped: bool)
    requires n >= 1 && 0 <= start < |sequence| < MaxSize && gammaPowered == GammaPowered(gamma, n)
    ensures start < pos <= |sequence|
    ensures stopped ==> CutEpisode(sequence, start, n, gamma, Learner(qEval, qLearn), learner0,
                                   Outcome(episodeUpdates, learner))
    ensures !stopped ==> WholeEpisode(sequence, start, pos, n, gamma, Learner(qEval, qLearn), learner0,
                                      Outcome(episodeUpdates, learner))
  {
    ghost var lr := Learner(qEval, qLearn);
    var step := sequence[start];
    pos := start + 1;
    var T := MaxSize;
    var t := 0;
    var history := [step];
    episodeUpdates := [];
    learner := learner0;
    assert sequence[start..pos] == history;
    while true
      invariant Top(sequence, start, pos, history, step, T, t, n, gamma, lr, learner0, episodeUpdates, learner)
      invariant start < pos <= |sequence| && (T != MaxSize ==> T <= |sequence|)
      decreases (if T == MaxSize then |sequence| - start else T) + n - t
    {
      if t < T {
        if step.isTerminal {
          Terminal(sequence, start, pos, history, step, t, n, gamma, lr, learner0, episodeUpdates, learner);
          T := t + 1;
        } else {
          if pos == |sequence| {
            EpisodeCut(sequence, start, history, step, t, n, gamma, lr, learner0, episodeUpdates, learner);
            stopped := true;
            return;
          }
          Pull(sequence, start, pos, history, step, t, n, gamma, lr, learner0, episodeUpdates, learner);
          step := sequence[pos];
          pos := pos + 1;
          history := history + [step];
        }
      } else {
        Known(sequence, start, pos, history, step, T, t, n, gamma, lr, learner0, episodeUpdates, learner);
      }
      ghost var us0, st0' := episodeUpdates, learner;
      var tau := t - n + 1;
      episodeUpdates, learner := UpdateAt(sequence, start, pos, history, step, T, t, n, gamma, gammaPowered,
                                          qEval, qLearn, learner0, episodeUpdates, learner);
      if tau == T - 1 {
        EpisodeEnd(sequence, start, pos, history, step, T, t, n, gamma, lr, learner0, us0, st0',
                   episodeUpdates, learner);
        stopped := false;
        return;
      }
      Advance(sequence, start, pos, history, step, T, t, n, gamma, lr, learner0, us0, st0', episodeUpdates, learner);
      t := t + 1;
    }
  }

  /** `SARSAn`: runs n-step SARSA over the stream for at most 50000 episodes, calling `q_eval` and `q_learn`
      on the learner; the calls to `q_learn` and the final learner state are those of `SarsaFrom`. */
  method SARSAn<L, S>(sequence: seq<Record<S>>, qEval: (L, S, int) -> real, qLearn: (L, S, int, real) -> L,
                      learner0: L, n: nat, gamma: real)
    returns (updates: seq<Update<S>>, learner: L)
    requires n >= 1 && |sequence| < MaxSize
    ensures var o := SarsaFrom(sequence, 0, EpisodeLimit, n, gamma, Learner(qEval, qLearn), learner0);
            updates == o.updates && learner == o.state
  {
    var gammaPowered := GammaPowered(gamma, n);
    ghost var lr := Learner(qEval, qLearn);
    ghost var total := SarsaFrom(sequence, 0, EpisodeLimit, n, gamma, lr, learner0);
    var pos := 0;
    updates := [];
    learner := learner0;
    var episodeI := 0;
    assert updates + total.updates == total.updates;
    while episodeI < EpisodeLimit
      invariant 0 <= episodeI <= EpisodeLimit
      invariant RunLeft(sequence, pos, EpisodeLimit - episodeI, n, gamma, lr, updates, learner, total)
    {
      if pos == |sequence| {
        break;
      }
      ghost var start, st0, acc := pos, learner, updates;
      var episodeUpdates, stopped;
      pos, episodeUpdates, learner, stopped := Episode(sequence, pos, qEval, qLearn, learner, n, gamma, gammaPowered);
      if stopped {
        RunCut(sequence, start, EpisodeLimit - episodeI, n, gamma, lr, acc, st0, Outcome(episodeUpdates, learner),
               total);
        updates := updates + episodeUpdates;
        return;
      }
      RunOn(sequence, start, pos, EpisodeLimit - episodeI, n, gamma, lr, acc, st0, Outcome(episodeUpdates, learner),
            total);
      updates := updates + episodeUpdates;
      episodeI := episodeI + 1;
    }
    RunStops(sequence, pos, EpisodeLimit - episodeI, n, gamma, lr, updates, learner, total);
  }
}
