/** Shared vocabulary: optional values, per-state action tables and numpy's argmax. */
module Tables {

  datatype Option<T> = None | Some(value: T)

  /** A table indexed by state, holding one entry per action (Q, C, or a behaviour distribution). */
  type Table<S> = map<S, seq<real>>

  predicate Indexes<S>(t: Table<S>, s: S, a: int)
  {
    s in t && 0 <= a < |t[s]|
  }

  /** The entry `t[s][a]`; the value 0.0 stands in for a missing entry, which the callers never read. */
  function Get<S>(t: Table<S>, s: S, a: int): real
  {
    if Indexes(t, s, a) then t[s][a] else 0.0
  }

  /** `t[s][a] = v` on a numpy-style table; a table without that entry is left as it is. */
  function Put<S>(t: Table<S>, s: S, a: int, v: real): Table<S>
  {
    if Indexes(t, s, a) then t[s := t[s][a := v]] else t
  }

  /** x / y for a divisor the callers have shown to be non-zero; 0.0 stands in otherwise. */
  function Quot(x: real, y: real): real
  {
    if y == 0.0 then 0.0 else x / y
  }

  /** Two tables have the same states and, per state, the same number of actions. */
  predicate SameShape<S>(t: Table<S>, u: Table<S>)
  {
    t.Keys == u.Keys && forall s :: s in t ==> |t[s]| == |u[s]|
  }

  /** Writing one entry changes that entry only and keeps the shape of the table. */
  lemma PutGet<S>(t: Table<S>, s: S, a: int, v: real, s': S, a': int)
    ensures SameShape(Put(t, s, a, v), t)
    ensures Indexes(Put(t, s, a, v), s', a') <==> Indexes(t, s', a')
    ensures Get(Put(t, s, a, v), s', a') ==
              if s' == s && a' == a && Indexes(t, s, a) then v else Get(t, s', a')
  {
  }

  function Abs(x: real): real
  {
    if x < 0.0 then -x else x
  }

  /** k is the lowest index holding a maximal entry of q. */
  predicate IsFirstArgmax(q: seq<real>, k: int)
  {
    && 0 <= k < |q|
    && (forall j :: 0 <= j < |q| ==> q[j] <= q[k])
    && (forall j :: 0 <= j < k ==> q[j] < q[k])
  }

  /** The index of the first maximum of q, scanning q[i..] with the best index so far k. */
  function ArgmaxFrom(q: seq<real>, i: nat, k: nat): (r: nat)
    requires k < |q| && i <= |q|
    ensures r < |q|
    decreases |q| - i
  {
    if i == |q| then k else ArgmaxFrom(q, i + 1, if q[i] > q[k] then i else k)
  }

  /** numpy's argmax: scans left to right and keeps the first maximum. */
  function FirstArgmax(q: seq<real>): (k: nat)
    requires |q| > 0
    ensures k < |q|
  {
    ArgmaxFrom(q, 1, 0)
  }

  /** Scanning from i with the first maximum of q[..i] at k ends at the first maximum of q. */
  lemma {:induction false} ArgmaxFromIsFirst(q: seq<real>, i: nat, k: nat)
    requires k < i <= |q| && IsFirstArgmax(q[..i], k)
    ensures IsFirstArgmax(q, ArgmaxFrom(q, i, k))
    decreases |q| - i
  {
    if i == |q| {
      assert q[..i] == q;
    } else {
      var k' := if q[i] > q[k] then i else k;
      assert forall j :: 0 <= j < i ==> q[..i + 1][j] == q[..i][j];
      ArgmaxFromIsFirst(q, i + 1, k');
    }
  }

  /** The scan returns the lowest index of a maximal entry. */
  lemma FirstArgmaxIsFirst(q: seq<real>)
    requires |q| > 0
    ensures IsFirstArgmax(q, FirstArgmax(q))
  {
    ArgmaxFromIsFirst(q, 1, 0);
  }

  /** The first-argmax property pins down a single index. */
  lemma FirstArgmaxUnique(q: seq<real>, k: int, k': int)
    requires IsFirstArgmax(q, k) && IsFirstArgmax(q, k')
    ensures k == k'
  {
    assert q[k'] <= q[k] && q[k] <= q[k'];
  }

  /** The greedy action of row s, as `np.argmax(t[s])`; 0 stands in when the row is missing or empty. */
  function Greedy<S>(t: Table<S>, s: S): int
  {
    if s in t && |t[s]| > 0 then FirstArgmax(t[s]) else 0
  }
}
