/** Full-traceback hard-decision Viterbi decoder for the (7,5) code. The received stream is
    flat: r1 of symbol t at index 2t and r0 at 2t + 1; an odd trailing element is ignored. */
module HardViterbi {
  import opened ConvCode
  import ReadmeArtifacts

  /** A path metric; `Unreached` stands for the INF initial value of the metric matrix. */
  datatype Metric = Unreached | Reached(n: nat)

  /** `cand < pm[t + 1, ns]`, where an unreached entry compares above every candidate. */
  predicate Improves(cand: nat, m: Metric)
  {
    m.Unreached? || cand < m.n
  }

  /** The number the metric matrix is initialised with (`INF = 10**9`). */
  const Inf: nat := 1_000_000_000

  /** The integer stored for a metric in the source's matrix. */
  function Stored(m: Metric): nat
  {
    if m.Unreached? then Inf else m.n
  }

  /** While metrics stay below the sentinel, the source's integer tests agree with the
      explicit unreached value: `pm >= INF` skips exactly the unreached states, `cand < pm`
      is Improves, and argmin's order on the stored integers is Below. */
  lemma SentinelAgrees(cand: nat, a: Metric, b: Metric)
    requires cand < Inf && (a.Reached? ==> a.n < Inf) && (b.Reached? ==> b.n < Inf)
    ensures Stored(a) >= Inf <==> a.Unreached?
    ensures Improves(cand, a) <==> cand < Stored(a)
    ensures Below(a, b) <==> Stored(a) < Stored(b)
  {
  }

  /** Strict order used by argmin: a reached metric below b (unreached entries tie). */
  predicate Below(a: Metric, b: Metric)
  {
    a.Reached? && (b.Unreached? || a.n < b.n)
  }

  /** Hamming distance between the received pair and the edge's expected pair. */
  function BranchMetric(s: State, u: Bit, r1: Bit, r0: Bit): (bm: nat)
    ensures bm <= 2
    ensures bm == 0 <==> Out1(s, u) == r1 && Out0(s, u) == r0
  {
    Xor(Out1(s, u), r1) + Xor(Out0(s, u), r0)
  }

  /** The branch metric is the Hamming distance between the expected and received pairs. */
  lemma BranchMetricIsDistance(s: State, u: Bit, r1: Bit, r0: Bit)
    ensures BranchMetric(s, u, r1, r0) == Distance([Out1(s, u), Out0(s, u)], [r1, r0])
  {
    PairDistance(Out1(s, u), Out0(s, u), r1, r0);
  }

  /** Position of the edge (s, u) in the scan order of the forward pass: states in
      ascending order and, for each, input 0 before input 1. */
  function Rank(s: State, u: Bit): nat { 2 * s + u }

  /** Hamming distance between the encoding of an input hypothesis v and the matching
      prefix of the received stream. */
  function Cost(rx: seq<Bit>, v: seq<Bit>): nat
    requires 2 * |v| <= |rx|
  {
    Distance(Encode(v), rx[..2 * |v|])
  }

  /** The decision is maximum-likelihood for a binary symmetric channel: no input sequence
      of the same length has an encoding closer to the received stream. */
  ghost predicate MostLikely(rx: seq<Bit>, uhat: seq<Bit>)
  {
    |uhat| == |rx| / 2 &&
    forall v: seq<Bit> {:trigger Cost(rx, v)} :: |v| == |rx| / 2 ==> Cost(rx, uhat) <= Cost(rx, v)
  }

  /** Extending a hypothesis by one input adds that edge's branch metric to its cost. */
  lemma {:induction false} CostStep(rx: seq<Bit>, w: seq<Bit>, u: Bit)
    requires 2 * |w| + 2 <= |rx|
    ensures EndState(w + [u]) == NextState(EndState(w), u)
    ensures Cost(rx, w + [u]) == Cost(rx, w) + BranchMetric(EndState(w), u, rx[2 * |w|], rx[2 * |w| + 1])
  {
    var v := w + [u];
    assert v[..|w|] == w;
    var s := EndState(w);
    assert Encode(v) == Encode(w) + [Out1(s, u), Out0(s, u)];
    var n := 2 * |w|;
    assert rx[..n + 2] == rx[..n] + [rx[n], rx[n + 1]];
    DistanceAppend(Encode(w), rx[..n], [Out1(s, u), Out0(s, u)], [rx[n], rx[n + 1]]);
    BranchMetricIsDistance(s, u, rx[n], rx[n + 1]);
  }

  /** The entry (m, p, pu) of next state q once the forward pass has scanned the edges of
      rank below k out of the metric row `row` of the previous step, for the received pair
      (r1, r0): m is unreached exactly when no scanned edge into q leaves a reached state;
      otherwise (p, pu) is a scanned edge into q from a reached state, m is its candidate
      metric, no scanned candidate is smaller, and every candidate scanned before it is
      strictly larger (strict `<` keeps the first minimum found). */
  ghost predicate SelectedUpTo(row: seq<Metric>, r1: Bit, r0: Bit, q: State, k: nat, m: Metric, p: int, pu: int)
    requires |row| == NumStates
  {
    (m.Unreached? <==> forall s: State, u: Bit :: Rank(s, u) < k && NextState(s, u) == q ==> row[s].Unreached?) &&
    (m.Unreached? ==> p == -1 && pu == -1) &&
    (m.Reached? ==>
       0 <= p < NumStates && 0 <= pu <= 1 && Rank(p, pu) < k && NextState(p, pu) == q && row[p].Reached? &&
       m.n == row[p].n + BranchMetric(p, pu, r1, r0) &&
       forall s: State, u: Bit :: Rank(s, u) < k && NextState(s, u) == q && row[s].Reached? ==>
         m.n <= row[s].n + BranchMetric(s, u, r1, r0) &&
         (Rank(s, u) < Rank(p, pu) ==> m.n < row[s].n + BranchMetric(s, u, r1, r0)))
  }

  /** Nothing scanned yet: every entry is still unreached with both back-pointers -1. */
  lemma SelectStart(row: seq<Metric>, r1: Bit, r0: Bit, q: State)
    requires |row| == NumStates
    ensures SelectedUpTo(row, r1, r0, q, 0, Unreached, -1, -1)
  {
  }

  /** Scanning edge (s, u) of rank k when it does not improve the entry of q leaves the entry
      as it is. */
  lemma SelectKeep(row: seq<Metric>, r1: Bit, r0: Bit, q: State, k: nat, m: Metric, p: int, pu: int, s: State, u: Bit)
    requires |row| == NumStates && Rank(s, u) == k
    requires SelectedUpTo(row, r1, r0, q, k, m, p, pu)
    requires row[s].Reached? ==> NextState(s, u) != q || !Improves(row[s].n + BranchMetric(s, u, r1, r0), m)
    ensures SelectedUpTo(row, r1, r0, q, k + 1, m, p, pu)
  {
    forall s': State, u': Bit | Rank(s', u') < k + 1
      ensures Rank(s', u') < k || (s' == s && u' == u)
    {
    }
  }

  /** Scanning edge (s, u) of rank k into q when it improves the entry makes it the survivor. */
  lemma SelectTake(row: seq<Metric>, r1: Bit, r0: Bit, q: State, k: nat, m: Metric, p: int, pu: int, s: State, u: Bit)
    requires |row| == NumStates && Rank(s, u) == k
    requires SelectedUpTo(row, r1, r0, q, k, m, p, pu)
    requires row[s].Reached? && NextState(s, u) == q && Improves(row[s].n + BranchMetric(s, u, r1, r0), m)
    ensures SelectedUpTo(row, r1, r0, q, k + 1, Reached(row[s].n + BranchMetric(s, u, r1, r0)), s, u)
  {
    forall s': State, u': Bit | Rank(s', u') < k + 1
      ensures Rank(s', u') < k || (s' == s && u' == u)
    {
    }
  }

  /** An entry of the matrices: path metric, predecessor state and input bit (-1 when unset). */
  datatype Choice = Choice(metric: Metric, prev: int, prevU: int)

  /** Add-compare-select for one edge (s, u) and the entry c of next state q: the candidate
      metric through the edge replaces the entry when it is strictly smaller. */
  function Step(c: Choice, row: seq<Metric>, r1: Bit, r0: Bit, q: State, s: State, u: Bit): Choice
    requires |row| == NumStates
  {
    if row[s].Reached? && NextState(s, u) == q && Improves(row[s].n + BranchMetric(s, u, r1, r0), c.metric)
    then Choice(Reached(row[s].n + BranchMetric(s, u, r1, r0)), s, u)
    else c
  }

  /** Reference definition of one row of the forward pass: the entry of next state q after
      applying Step, in rank order, to the edges of rank below k out of the previous metric
      row, starting from an unreached entry with back-pointers -1. */
  function Scan(row: seq<Metric>, r1: Bit, r0: Bit, q: State, k: nat): Choice
    requires |row| == NumStates && k <= 8
  {
    if k == 0 then Choice(Unreached, -1, -1)
    else Step(Scan(row, r1, r0, q, k - 1), row, r1, r0, q, (k - 1) / 2, (k - 1) % 2)
  }

  /** Add-compare-select selects: the scanned entry is unreached exactly when no scanned edge
      into q leaves a reached state, and otherwise holds the least candidate metric with the
      first edge (in scan order) that achieves it. */
  lemma {:induction false} ScanSelects(row: seq<Metric>, r1: Bit, r0: Bit, q: State, k: nat)
    requires |row| == NumStates && k <= 8
    ensures var c := Scan(row, r1, r0, q, k); SelectedUpTo(row, r1, r0, q, k, c.metric, c.prev, c.prevU)
  {
    if k == 0 {
      SelectStart(row, r1, r0, q);
    } else {
      ScanSelects(row, r1, r0, q, k - 1);
      ScanStepSelects(row, r1, r0, q, k - 1, Scan(row, r1, r0, q, k - 1));
    }
  }

  /** One Step of the scan, at rank k, keeps the selection property. */
  lemma ScanStepSelects(row: seq<Metric>, r1: Bit, r0: Bit, q: State, k: nat, c: Choice)
    requires |row| == NumStates && k < 8
    requires SelectedUpTo(row, r1, r0, q, k, c.metric, c.prev, c.prevU)
    ensures var c' := Step(c, row, r1, r0, q, k / 2, k % 2); SelectedUpTo(row, r1, r0, q, k + 1, c'.metric, c'.prev, c'.prevU)
  {
    var s: State, u: Bit := k / 2, k % 2;
    assert Rank(s, u) == k;
    if row[s].Reached? && NextState(s, u) == q && Improves(row[s].n + BranchMetric(s, u, r1, r0), c.metric) {
      SelectTake(row, r1, r0, q, k, c.metric, c.prev, c.prevU, s, u);
    } else {
      SelectKeep(row, r1, r0, q, k, c.metric, c.prev, c.prevU, s, u);
    }
  }

  /** Computes row t of the metric and back-pointer matrices from row t - 1 and the received
      pair (r1, r0), scanning (s, u) in rank order and skipping unreached states. */
  method RelaxStep(t: nat, r1: Bit, r0: Bit, nextState: array2<State>, outBits: array3<Bit>,
                   pm: array2<Metric>, prev: array2<int>, prevU: array2<int>)
    requires ReadmeArtifacts.TrellisTables(nextState, outBits)
    requires prev != prevU
    requires pm.Length1 == NumStates && prev.Length1 == NumStates && prevU.Length1 == NumStates
    requires 1 <= t < pm.Length0 && prev.Length0 == pm.Length0 && prevU.Length0 == pm.Length0
    requires forall q :: 0 <= q < NumStates ==> pm[t, q] == Unreached && prev[t, q] == -1 && prevU[t, q] == -1
    modifies pm, prev, prevU
    ensures forall i, j :: 0 <= i < pm.Length0 && i != t && 0 <= j < NumStates ==> pm[i, j] == old(pm[i, j])
    ensures forall i, j :: 0 <= i < pm.Length0 && i != t && 0 <= j < NumStates ==> prev[i, j] == old(prev[i, j])
    ensures forall i, j :: 0 <= i < pm.Length0 && i != t && 0 <= j < NumStates ==> prevU[i, j] == old(prevU[i, j])
    ensures forall q: State ::
              Choice(pm[t, q], prev[t, q], prevU[t, q]) == Scan([pm[t - 1, 0], pm[t - 1, 1], pm[t - 1, 2], pm[t - 1, 3]], r1, r0, q, 8)
  {
    ghost var row := [pm[t - 1, 0], pm[t - 1, 1], pm[t - 1, 2], pm[t - 1, 3]];
    for s := 0 to NumStates
      invariant forall i, j :: 0 <= i < pm.Length0 && i != t && 0 <= j < NumStates ==> pm[i, j] == old(pm[i, j])
      invariant forall i, j :: 0 <= i < pm.Length0 && i != t && 0 <= j < NumStates ==> prev[i, j] == old(prev[i, j])
      invariant forall i, j :: 0 <= i < pm.Length0 && i != t && 0 <= j < NumStates ==> prevU[i, j] == old(prevU[i, j])
      invariant forall j: State :: row[j] == pm[t - 1, j]
      invariant forall q: State :: Choice(pm[t, q], prev[t, q], prevU[t, q]) == Scan(row, r1, r0, q, 2 * s)
    {
      ScanState(t, r1, r0, nextState, outBits, pm, prev, prevU, s, row);
    }
    assert row == [pm[t - 1, 0], pm[t - 1, 1], pm[t - 1, 2], pm[t - 1, 3]];
  }

  /** The edges leaving state s: skipped when s is unreached in row t - 1, otherwise input 0
      then input 1 go through add-compare-select. */
  method ScanState(t: nat, r1: Bit, r0: Bit, nextState: array2<State>, outBits: array3<Bit>,
                   pm: array2<Metric>, prev: array2<int>, prevU: array2<int>, s: State, ghost row: seq<Metric>)
    requires ReadmeArtifacts.TrellisTables(nextState, outBits)
    requires prev != prevU
    requires pm.Length1 == NumStates && prev.Length1 == NumStates && prevU.Length1 == NumStates
    requires 1 <= t < pm.Length0 && prev.Length0 == pm.Length0 && prevU.Length0 == pm.Length0
    requires |row| == NumStates && (forall j: State :: row[j] == pm[t - 1, j])
    requires forall q: State :: Choice(pm[t, q], prev[t, q], prevU[t, q]) == Scan(row, r1, r0, q, 2 * s)
    modifies pm, prev, prevU
    ensures forall i, j :: 0 <= i < pm.Length0 && i != t && 0 <= j < NumStates ==> pm[i, j] == old(pm[i, j])
    ensures forall i, j :: 0 <= i < pm.Length0 && i != t && 0 <= j < NumStates ==> prev[i, j] == old(prev[i, j])
    ensures forall i, j :: 0 <= i < pm.Length0 && i != t && 0 <= j < NumStates ==> prevU[i, j] == old(prevU[i, j])
    ensures forall q: State :: Choice(pm[t, q], prev[t, q], prevU[t, q]) == Scan(row, r1, r0, q, 2 * (s + 1))
  {
    if pm[t - 1, s].Reached? {
      ScanOutgoing(t, r1, r0, nextState, outBits, pm, prev, prevU, s, row);
    } else {
      forall q: State
        ensures Scan(row, r1, r0, q, 2 * s + 2) == Scan(row, r1, r0, q, 2 * s)
      {
        ScanSkip(row, r1, r0, q, s);
      }
    }
  }

  /** An unreached state contributes no candidate through either of its edges. */
  lemma ScanSkip(row: seq<Metric>, r1: Bit, r0: Bit, q: State, s: State)
    requires |row| == NumStates && row[s].Unreached?
    ensures Scan(row, r1, r0, q, 2 * s + 2) == Scan(row, r1, r0, q, 2 * s)
  {
    assert (2 * s + 1) / 2 == s && (2 * s) / 2 == s;
  }

  /** The two edges of a reached state s, input 0 then input 1. */
  method ScanOutgoing(t: nat, r1: Bit, r0: Bit, nextState: array2<State>, outBits: array3<Bit>,
                   pm: array2<Metric>, prev: array2<int>, prevU: array2<int>, s: State, ghost row: seq<Metric>)
    requires ReadmeArtifacts.TrellisTables(nextState, outBits)
    requires prev != prevU
    requires pm.Length1 == NumStates && prev.Length1 == NumStates && prevU.Length1 == NumStates
    requires 1 <= t < pm.Length0 && prev.Length0 == pm.Length0 && prevU.Length0 == pm.Length0
    requires |row| == NumStates && (forall j: State :: row[j] == pm[t - 1, j]) && row[s].Reached?
    requires forall q: State :: Choice(pm[t, q], prev[t, q], prevU[t, q]) == Scan(row, r1, r0, q, 2 * s)
    modifies pm, prev, prevU
    ensures forall i, j :: 0 <= i < pm.Length0 && i != t && 0 <= j < NumStates ==> pm[i, j] == old(pm[i, j])
    ensures forall i, j :: 0 <= i < pm.Length0 && i != t && 0 <= j < NumStates ==> prev[i, j] == old(prev[i, j])
    ensures forall i, j :: 0 <= i < pm.Length0 && i != t && 0 <= j < NumStates ==> prevU[i, j] == old(prevU[i, j])
    ensures forall q: State :: Choice(pm[t, q], prev[t, q], prevU[t, q]) == Scan(row, r1, r0, q, 2 * s + 2)
  {
    for u := 0 to 2
      invariant forall i, j :: 0 <= i < pm.Length0 && i != t && 0 <= j < NumStates ==> pm[i, j] == old(pm[i, j])
      invariant forall i, j :: 0 <= i < pm.Length0 && i != t && 0 <= j < NumStates ==> prev[i, j] == old(prev[i, j])
      invariant forall i, j :: 0 <= i < pm.Length0 && i != t && 0 <= j < NumStates ==> prevU[i, j] == old(prevU[i, j])
      invariant forall j: State :: row[j] == pm[t - 1, j]
      invariant forall q: State :: Choice(pm[t, q], prev[t, q], prevU[t, q]) == Scan(row, r1, r0, q, 2 * s + u)
    {
      label before:
      ScanEdge(t, r1, r0, nextState, outBits, pm, prev, prevU, s, u, row);
      forall q: State
        ensures Choice(pm[t, q], prev[t, q], prevU[t, q]) == Scan(row, r1, r0, q, 2 * s + u + 1)
      {
        ScanNext(row, r1, r0, q, s, u);
        assert Choice(old@before(pm[t, q]), old@before(prev[t, q]), old@before(prevU[t, q])) == Scan(row, r1, r0, q, 2 * s + u);
      }
    }
  }

  /** One add-compare-select step on the matrices: the entry of the next state of edge (s, u)
      in row t becomes Step of its old value; every other entry is unchanged. */
  method ScanEdge(t: nat, r1: Bit, r0: Bit, nextState: array2<State>, outBits: array3<Bit>,
                  pm: array2<Metric>, prev: array2<int>, prevU: array2<int>, s: State, u: Bit, ghost row: seq<Metric>)
    requires ReadmeArtifacts.TrellisTables(nextState, outBits)
    requires prev != prevU
    requires pm.Length1 == NumStates && prev.Length1 == NumStates && prevU.Length1 == NumStates
    requires 1 <= t < pm.Length0 && prev.Length0 == pm.Length0 && prevU.Length0 == pm.Length0
    requires |row| == NumStates && (forall j: State :: row[j] == pm[t - 1, j]) && row[s].Reached?
    modifies pm, prev, prevU
    ensures forall i, j :: 0 <= i < pm.Length0 && i != t && 0 <= j < NumStates ==> pm[i, j] == old(pm[i, j])
    ensures forall i, j :: 0 <= i < pm.Length0 && i != t && 0 <= j < NumStates ==> prev[i, j] == old(prev[i, j])
    ensures forall i, j :: 0 <= i < pm.Length0 && i != t && 0 <= j < NumStates ==> prevU[i, j] == old(prevU[i, j])
    ensures forall q: State :: Choice(pm[t, q], prev[t, q], prevU[t, q]) ==
              Step(Choice(old(pm[t, q]), old(prev[t, q]), old(prevU[t, q])), row, r1, r0, q, s, u)
  {
    var ns := nextState[s, u];
    var v1, v0 := outBits[s, u, 0], outBits[s, u, 1];
    var bm := Xor(v1, r1) + Xor(v0, r0);
    var cand := pm[t - 1, s].n + bm;
    assert bm == BranchMetric(s, u, r1, r0);
    if pm[t, ns].Unreached? || cand < pm[t, ns].n {
      pm[t, ns] := Reached(cand);
      prev[t, ns] := s;
      prevU[t, ns] := u;
    }
  }

  /** Scanning edge (s, u) is the step from its rank 2s + u to the next one. */
  lemma ScanNext(row: seq<Metric>, r1: Bit, r0: Bit, q: State, s: State, u: Bit)
    requires |row| == NumStates
    ensures Scan(row, r1, r0, q, 2 * s + u + 1) == Step(Scan(row, r1, r0, q, 2 * s + u), row, r1, r0, q, s, u)
  {
    assert (2 * s + u) / 2 == s && (2 * s + u) % 2 == u;
  }

  /** The metric and back-pointer matrices after the forward pass over the received stream:
      T + 1 rows of four states, row 0 reached only in state 0 with metric 0, and every later
      row computed from the one before by add-compare-select. */
  ghost predicate ForwardFilled(rx: seq<Bit>, pm: array2<Metric>, prev: array2<int>, prevU: array2<int>)
    reads pm, prev, prevU
  {
    pm.Length0 == |rx| / 2 + 1 && pm.Length1 == NumStates &&
    prev.Length0 == pm.Length0 && prev.Length1 == NumStates &&
    prevU.Length0 == pm.Length0 && prevU.Length1 == NumStates &&
    pm[0, 0] == Reached(0) && (forall q :: 1 <= q < NumStates ==> pm[0, q] == Unreached) &&
    forall t, q: State :: 1 <= t < pm.Length0 ==>
      Choice(pm[t, q], prev[t, q], prevU[t, q]) ==
      Scan([pm[t - 1, 0], pm[t - 1, 1], pm[t - 1, 2], pm[t - 1, 3]], rx[2 * t - 2], rx[2 * t - 1], q, 8)
  }

  /** Forward pass: allocates the (T + 1) x 4 matrices with every metric unreached and every
      back-pointer -1, starts state 0 at metric 0, then fills row t + 1 from row t for each t. */
  method ForwardPass(rx: seq<Bit>, nextState: array2<State>, outBits: array3<Bit>)
    returns (pm: array2<Metric>, prev: array2<int>, prevU: array2<int>)
    requires ReadmeArtifacts.TrellisTables(nextState, outBits)
    ensures fresh(pm) && fresh(prev) && fresh(prevU)
    ensures ForwardFilled(rx, pm, prev, prevU)
  {
    var T := |rx| / 2;
    pm := new Metric[T + 1, NumStates]((i, j) => Unreached);
    prev := new int[T + 1, NumStates]((i, j) => -1);
    prevU := new int[T + 1, NumStates]((i, j) => -1);
    pm[0, 0] := Reached(0);
    for t := 0 to T
      invariant FilledUpTo(rx, pm, prev, prevU, t)
    {
      ForwardStep(rx, nextState, outBits, pm, prev, prevU, t);
    }
  }

  /** The matrices part-way through the forward pass: row 0 initialised, rows 1..t computed
      from the row before, and the rows after t still at their initial values. */
  ghost predicate FilledUpTo(rx: seq<Bit>, pm: array2<Metric>, prev: array2<int>, prevU: array2<int>, t: nat)
    reads pm, prev, prevU
  {
    pm.Length0 == |rx| / 2 + 1 && pm.Length1 == NumStates &&
    prev.Length0 == pm.Length0 && prev.Length1 == NumStates &&
    prevU.Length0 == pm.Length0 && prevU.Length1 == NumStates && prev != prevU && t < pm.Length0 &&
    pm[0, 0] == Reached(0) && (forall q :: 1 <= q < NumStates ==> pm[0, q] == Unreached) &&
    (forall t', q: State :: 1 <= t' <= t ==>
       Choice(pm[t', q], prev[t', q], prevU[t', q]) ==
       Scan([pm[t' - 1, 0], pm[t' - 1, 1], pm[t' - 1, 2], pm[t' - 1, 3]], rx[2 * t' - 2], rx[2 * t' - 1], q, 8)) &&
    (forall t', q :: t < t' < pm.Length0 && 0 <= q < NumStates ==>
       pm[t', q] == Unreached && prev[t', q] == -1 && prevU[t', q] == -1)
  }

  /** One iteration of the forward loop: row t + 1 is computed from row t and the received
      pair (rx[2t], rx[2t + 1]), extending the filled prefix by one row. */
  method ForwardStep(rx: seq<Bit>, nextState: array2<State>, outBits: array3<Bit>,
                     pm: array2<Metric>, prev: array2<int>, prevU: array2<int>, t: nat)
    requires ReadmeArtifacts.TrellisTables(nextState, outBits)
    requires FilledUpTo(rx, pm, prev, prevU, t) && t < |rx| / 2
    modifies pm, prev, prevU
    ensures FilledUpTo(rx, pm, prev, prevU, t + 1)
  {
    var r1, r0 := rx[2 * t], rx[2 * t + 1];
    RelaxStep(t + 1, r1, r0, nextState, outBits, pm, prev, prevU);
    assert rx[2 * (t + 1) - 2] == r1 && rx[2 * (t + 1) - 1] == r0;
  }

  /** The selection facts of one entry of a filled matrix, read through the previous row. */
  lemma EntrySelected(rx: seq<Bit>, pm: array2<Metric>, prev: array2<int>, prevU: array2<int>, t: nat, q: State)
    requires ForwardFilled(rx, pm, prev, prevU)
    requires 1 <= t < pm.Length0
    ensures SelectedUpTo([pm[t - 1, 0], pm[t - 1, 1], pm[t - 1, 2], pm[t - 1, 3]], rx[2 * t - 2], rx[2 * t - 1],
                         q, 8, pm[t, q], prev[t, q], prevU[t, q])
  {
    ScanSelects([pm[t - 1, 0], pm[t - 1, 1], pm[t - 1, 2], pm[t - 1, 3]], rx[2 * t - 2], rx[2 * t - 1], q, 8);
  }

  /** A reached entry of row t >= 1 points back to a reached entry of row t - 1 along a trellis
      edge, and its metric is that entry's metric plus the edge's branch metric. */
  lemma BackPointer(rx: seq<Bit>, pm: array2<Metric>, prev: array2<int>, prevU: array2<int>, t: nat, q: State)
    requires ForwardFilled(rx, pm, prev, prevU)
    requires 1 <= t < pm.Length0 && pm[t, q].Reached?
    ensures 0 <= prev[t, q] < NumStates && 0 <= prevU[t, q] <= 1
    ensures NextState(prev[t, q], prevU[t, q]) == q && pm[t - 1, prev[t, q]].Reached?
    ensures pm[t, q].n == pm[t - 1, prev[t, q]].n + BranchMetric(prev[t, q], prevU[t, q], rx[2 * t - 2], rx[2 * t - 1])
  {
    EntrySelected(rx, pm, prev, prevU, t, q);
    var p := prev[t, q];
    assert [pm[t - 1, 0], pm[t - 1, 1], pm[t - 1, 2], pm[t - 1, 3]][p] == pm[t - 1, p];
  }

  /** Every edge out of a reached entry of row t - 1 reaches its next state in row t with a
      metric no larger than the candidate it offers. */
  lemma Relaxed(rx: seq<Bit>, pm: array2<Metric>, prev: array2<int>, prevU: array2<int>, t: nat, s: State, u: Bit)
    requires ForwardFilled(rx, pm, prev, prevU)
    requires 1 <= t < pm.Length0 && pm[t - 1, s].Reached?
    ensures pm[t, NextState(s, u)].Reached?
    ensures pm[t, NextState(s, u)].n <= pm[t - 1, s].n + BranchMetric(s, u, rx[2 * t - 2], rx[2 * t - 1])
  {
    EntrySelected(rx, pm, prev, prevU, t, NextState(s, u));
    assert [pm[t - 1, 0], pm[t - 1, 1], pm[t - 1, 2], pm[t - 1, 3]][s] == pm[t - 1, s];
    assert Rank(s, u) < 8;
  }

  /** The survivor path into state s at step t, read off the back-pointers. */
  ghost function Survivor(rx: seq<Bit>, pm: array2<Metric>, prev: array2<int>, prevU: array2<int>, t: nat, s: State): seq<Bit>
    reads pm, prev, prevU
    requires ForwardFilled(rx, pm, prev, prevU)
    requires t < pm.Length0 && pm[t, s].Reached?
    decreases t
  {
    if t == 0 then []
    else
      BackPointer(rx, pm, prev, prevU, t, s);
      Survivor(rx, pm, prev, prevU, t - 1, prev[t, s]) + [prevU[t, s]]
  }

  /** Survivor consistency: the survivor into a reached entry has t inputs, ends in s, and its
      encoding lies at Hamming distance pm[t, s] from the received prefix. */
  lemma {:induction false} SurvivorSound(rx: seq<Bit>, pm: array2<Metric>, prev: array2<int>, prevU: array2<int>, t: nat, s: State)
    requires ForwardFilled(rx, pm, prev, prevU)
    requires t < pm.Length0 && pm[t, s].Reached?
    ensures |Survivor(rx, pm, prev, prevU, t, s)| == t
    ensures EndState(Survivor(rx, pm, prev, prevU, t, s)) == s
    ensures Cost(rx, Survivor(rx, pm, prev, prevU, t, s)) == pm[t, s].n
    decreases t
  {
    if t > 0 {
      BackPointer(rx, pm, prev, prevU, t, s);
      var p, u := prev[t, s], prevU[t, s];
      SurvivorSound(rx, pm, prev, prevU, t - 1, p);
      CostStep(rx, Survivor(rx, pm, prev, prevU, t - 1, p), u);
    }
  }

  /** Optimality of the forward pass: every input hypothesis of length t reaches its end state
      in row t with a metric no larger than its own cost. */
  lemma {:induction false} LowerBound(rx: seq<Bit>, pm: array2<Metric>, prev: array2<int>, prevU: array2<int>, v: seq<Bit>)
    requires ForwardFilled(rx, pm, prev, prevU)
    requires |v| <= |rx| / 2
    ensures pm[|v|, EndState(v)].Reached? && pm[|v|, EndState(v)].n <= Cost(rx, v)
    decreases |v|
  {
    if |v| > 0 {
      var w, u := v[..|v| - 1], v[|v| - 1];
      assert v == w + [u];
      LowerBound(rx, pm, prev, prevU, w);
      CostStep(rx, w, u);
      Relaxed(rx, pm, prev, prevU, |v|, EndState(w), u);
    }
  }

  /** Every finite metric in row t is at most 2t: branch metrics are at most 2. */
  lemma MetricBound(rx: seq<Bit>, pm: array2<Metric>, prev: array2<int>, prevU: array2<int>, t: nat, s: State)
    requires ForwardFilled(rx, pm, prev, prevU)
    requires t < pm.Length0 && pm[t, s].Reached?
    ensures pm[t, s].n <= 2 * t
  {
    SurvivorSound(rx, pm, prev, prevU, t, s);
  }

  /** `np.argmin`: an index of a least metric, the lowest one among ties, unreached entries
      counting as equal to each other and above every reached one. */
  function ArgMin(row: seq<Metric>): (best: nat)
    requires |row| > 0
    ensures best < |row|
    ensures forall s :: 0 <= s < |row| ==> !Below(row[s], row[best])
    ensures forall s :: 0 <= s < best ==> Below(row[best], row[s])
  {
    if |row| == 1 then 0
    else
      var last := |row| - 1;
      var b := ArgMin(row[..last]);
      assert forall s :: 0 <= s < last ==> row[..last][s] == row[s];
      if Below(row[last], row[b]) then last else b
  }

  /** Traceback from the chosen end state: walks the back-pointers from step T down to 1,
      writing each input decision into its place (a negative back-pointer would fall back to
      state 0). */
  method Traceback(rx: seq<Bit>, pm: array2<Metric>, prev: array2<int>, prevU: array2<int>, sEnd: State)
    returns (uhat: seq<Bit>)
    requires ForwardFilled(rx, pm, prev, prevU)
    requires pm[|rx| / 2, sEnd].Reached?
    ensures uhat == Survivor(rx, pm, prev, prevU, |rx| / 2, sEnd)
  {
    var T := |rx| / 2;
    ghost var full := Survivor(rx, pm, prev, prevU, T, sEnd);
    ghost var path := SurvivorPath(rx, pm, prev, prevU, T, sEnd);
    var decided := new Bit[T];
    var s: int := sEnd;
    var t := T;
    while t > 0
      invariant 0 <= t <= T && s == path[t]
      invariant forall i :: t <= i < T ==> decided[i] == full[i]
      decreases t
    {
      decided[t - 1] := prevU[t, s];
      assert prev[t, s] == path[t - 1] >= 0;
      s := if prev[t, s] >= 0 then prev[t, s] else 0;
      t := t - 1;
    }
    uhat := decided[..];
  }

  /** The states the survivor into (t, s) passes through, read off the back-pointers: entry i
      is its state after i inputs, and the back-pointers of entry i name entry i - 1 and the
      survivor's input i - 1. */
  lemma {:induction false} SurvivorPath(rx: seq<Bit>, pm: array2<Metric>, prev: array2<int>, prevU: array2<int>, t: nat, s: State)
    returns (path: seq<int>)
    requires ForwardFilled(rx, pm, prev, prevU)
    requires t < pm.Length0 && pm[t, s].Reached?
    ensures |path| == t + 1 && path[t] == s && |Survivor(rx, pm, prev, prevU, t, s)| == t
    ensures forall i :: 0 <= i <= t ==> 0 <= path[i] < NumStates
    ensures forall i :: 1 <= i <= t ==>
              prev[i, path[i]] == path[i - 1] && prevU[i, path[i]] == Survivor(rx, pm, prev, prevU, t, s)[i - 1]
    decreases t
  {
    SurvivorSound(rx, pm, prev, prevU, t, s);
    if t == 0 {
      path := [s];
    } else {
      ghost var full := Survivor(rx, pm, prev, prevU, t, s);
      TracebackStep(rx, pm, prev, prevU, full, t, s);
      var rest := SurvivorPath(rx, pm, prev, prevU, t - 1, prev[t, s]);
      path := rest + [s];
      forall i | 1 <= i < t
        ensures prevU[i, path[i]] == full[i - 1]
      {
        assert full[..t - 1][i - 1] == full[i - 1];
      }
    }
  }

  /** One traceback step: the survivor into (t, s) is the survivor into its back-pointer
      extended by the input of the edge taken. */
  lemma TracebackStep(rx: seq<Bit>, pm: array2<Metric>, prev: array2<int>, prevU: array2<int>,
                      full: seq<Bit>, t: nat, s: State)
    requires ForwardFilled(rx, pm, prev, prevU)
    requires 1 <= t < pm.Length0 && pm[t, s].Reached? && t <= |full|
    requires full[..t] == Survivor(rx, pm, prev, prevU, t, s)
    ensures 0 <= prev[t, s] < NumStates && pm[t - 1, prev[t, s]].Reached?
    ensures full[..t - 1] == Survivor(rx, pm, prev, prevU, t - 1, prev[t, s])
    ensures full[t - 1] == prevU[t, s]
  {
    BackPointer(rx, pm, prev, prevU, t, s);
    ghost var here := Survivor(rx, pm, prev, prevU, t, s);
    assert full[..t - 1] == here[..t - 1] && full[t - 1] == here[t - 1];
  }

  /** `viterbi_decode_hard_7_5`: decodes floor(|rx| / 2) input bits. The decision is exactly
      the source's: the forward-pass matrices are the reference rows (first-found edge kept on
      ties), the end state is argmin's lowest least index, and the bits are the survivor into
      it. It is a most-likely input sequence for the received stream. The ghost outputs name
      the matrices and the end state the decision is read from. */
  method ViterbiDecodeHard(rx: seq<Bit>)
    returns (uhat: seq<Bit>, ghost pm: array2<Metric>, ghost prev: array2<int>, ghost prevU: array2<int>,
             ghost sEnd: State)
    ensures ForwardFilled(rx, pm, prev, prevU)
    ensures sEnd == ArgMin([pm[|rx| / 2, 0], pm[|rx| / 2, 1], pm[|rx| / 2, 2], pm[|rx| / 2, 3]])
    ensures pm[|rx| / 2, sEnd].Reached? && uhat == Survivor(rx, pm, prev, prevU, |rx| / 2, sEnd)
    ensures |uhat| == |rx| / 2
    ensures Cost(rx, uhat) == pm[|rx| / 2, sEnd].n
    ensures MostLikely(rx, uhat)
    ensures forall bits: seq<Bit> :: Encode(bits) == rx ==> uhat == bits
  {
    var nextState, outBits := ReadmeArtifacts.Precompute();
    var m, p, pu := ForwardPass(rx, nextState, outBits);
    var T := |rx| / 2;
    var best := ArgMin([m[T, 0], m[T, 1], m[T, 2], m[T, 3]]);
    EndReached(rx, m, p, pu);
    uhat := Traceback(rx, m, p, pu, best);
    SurvivorOptimal(rx, m, p, pu);
    forall bits: seq<Bit> | Encode(bits) == rx
      ensures uhat == bits
    {
      NoiselessRoundTrip(bits, uhat);
    }
    pm, prev, prevU, sEnd := m, p, pu, best;
  }

  /** Some state is reached after the last step (the all-zero input reaches state 0), so
      argmin picks a reached end state. */
  lemma EndReached(rx: seq<Bit>, pm: array2<Metric>, prev: array2<int>, prevU: array2<int>)
    requires ForwardFilled(rx, pm, prev, prevU)
    ensures ArgMin([pm[|rx| / 2, 0], pm[|rx| / 2, 1], pm[|rx| / 2, 2], pm[|rx| / 2, 3]]) < NumStates
    ensures pm[|rx| / 2, ArgMin([pm[|rx| / 2, 0], pm[|rx| / 2, 1], pm[|rx| / 2, 2], pm[|rx| / 2, 3]])].Reached?
  {
    var T := |rx| / 2;
    var row := [pm[T, 0], pm[T, 1], pm[T, 2], pm[T, 3]];
    var best := ArgMin(row);
    EndStateIsLastTwo(Zeros(T));
    LowerBound(rx, pm, prev, prevU, Zeros(T));
    assert row[0].Reached? && !Below(row[0], row[best]);
    assert row[best] == pm[T, best];
  }

  /** The survivor into argmin's end state is a most-likely decision, and its cost is that
      state's metric. */
  lemma SurvivorOptimal(rx: seq<Bit>, pm: array2<Metric>, prev: array2<int>, prevU: array2<int>)
    requires ForwardFilled(rx, pm, prev, prevU)
    requires pm[|rx| / 2, ArgMin([pm[|rx| / 2, 0], pm[|rx| / 2, 1], pm[|rx| / 2, 2], pm[|rx| / 2, 3]])].Reached?
    ensures var T := |rx| / 2; var best := ArgMin([pm[T, 0], pm[T, 1], pm[T, 2], pm[T, 3]]);
            |Survivor(rx, pm, prev, prevU, T, best)| == T &&
            Cost(rx, Survivor(rx, pm, prev, prevU, T, best)) == pm[T, best].n &&
            MostLikely(rx, Survivor(rx, pm, prev, prevU, T, best))
  {
    var T := |rx| / 2;
    var row := [pm[T, 0], pm[T, 1], pm[T, 2], pm[T, 3]];
    var best := ArgMin(row);
    var uhat := Survivor(rx, pm, prev, prevU, T, best);
    SurvivorSound(rx, pm, prev, prevU, T, best);
    forall v: seq<Bit> | |v| == T
      ensures Cost(rx, uhat) <= Cost(rx, v)
    {
      LowerBound(rx, pm, prev, prevU, v);
      assert row[EndState(v)] == pm[T, EndState(v)] && !Below(row[EndState(v)], row[best]);
    }
  }

  /** The forward pass has one outcome: any two matrices filled over the same received stream
      agree on every metric and, from row 1 on, on every back-pointer. */
  lemma {:induction false} RowsDetermined(rx: seq<Bit>, pm: array2<Metric>, prev: array2<int>, prevU: array2<int>,
                                          pm': array2<Metric>, prev': array2<int>, prevU': array2<int>, t: nat)
    requires ForwardFilled(rx, pm, prev, prevU) && ForwardFilled(rx, pm', prev', prevU')
    requires t < pm.Length0
    ensures forall q: State :: pm[t, q] == pm'[t, q]
    ensures t >= 1 ==> forall q: State :: prev[t, q] == prev'[t, q] && prevU[t, q] == prevU'[t, q]
    decreases t
  {
    if t >= 1 {
      RowsDetermined(rx, pm, prev, prevU, pm', prev', prevU', t - 1);
      assert [pm[t - 1, 0], pm[t - 1, 1], pm[t - 1, 2], pm[t - 1, 3]] ==
             [pm'[t - 1, 0], pm'[t - 1, 1], pm'[t - 1, 2], pm'[t - 1, 3]];
      forall q: State
        ensures Choice(pm[t, q], prev[t, q], prevU[t, q]) == Choice(pm'[t, q], prev'[t, q], prevU'[t, q])
      {
      }
    }
  }

  /** The decision has one outcome: over the same received stream, the end state and the
      survivor read from any two filled matrices are the same. */
  lemma {:induction false} DecisionDetermined(rx: seq<Bit>, pm: array2<Metric>, prev: array2<int>, prevU: array2<int>,
                                              pm': array2<Metric>, prev': array2<int>, prevU': array2<int>, t: nat, s: State)
    requires ForwardFilled(rx, pm, prev, prevU) && ForwardFilled(rx, pm', prev', prevU')
    requires t < pm.Length0 && pm[t, s].Reached?
    ensures pm'[t, s].Reached?
    ensures ArgMin([pm[t, 0], pm[t, 1], pm[t, 2], pm[t, 3]]) == ArgMin([pm'[t, 0], pm'[t, 1], pm'[t, 2], pm'[t, 3]])
    ensures Survivor(rx, pm, prev, prevU, t, s) == Survivor(rx, pm', prev', prevU', t, s)
    decreases t
  {
    RowsDetermined(rx, pm, prev, prevU, pm', prev', prevU', t);
    assert [pm[t, 0], pm[t, 1], pm[t, 2], pm[t, 3]] == [pm'[t, 0], pm'[t, 1], pm'[t, 2], pm'[t, 3]];
    if t >= 1 {
      BackPointer(rx, pm, prev, prevU, t, s);
      DecisionDetermined(rx, pm, prev, prevU, pm', prev', prevU', t - 1, prev[t, s]);
    }
  }

  /** Only the edges out of state 0 matter when the other states are unreached. */
  lemma StartRowSkips(row: seq<Metric>, r1: Bit, r0: Bit, q: State)
    requires |row| == NumStates && row[1].Unreached? && row[2].Unreached? && row[3].Unreached?
    ensures Scan(row, r1, r0, q, 8) == Scan(row, r1, r0, q, 2)
  {
    ScanSkip(row, r1, r0, q, 3);
    ScanSkip(row, r1, r0, q, 2);
    ScanSkip(row, r1, r0, q, 1);
  }

  /** The tie of a received pair 10 or 01: inputs 0 and 1 are equally close, after one step
      states 0 and 1 both hold metric 1, argmin keeps the lower state 0, and the decision read
      from it is input 0. */
  lemma TieBreak(rx: seq<Bit>, pm: array2<Metric>, prev: array2<int>, prevU: array2<int>)
    requires |rx| == 2 && rx[0] != rx[1] && ForwardFilled(rx, pm, prev, prevU)
    ensures pm[1, 0] == Reached(1) && pm[1, 1] == Reached(1)
    ensures ArgMin([pm[1, 0], pm[1, 1], pm[1, 2], pm[1, 3]]) == 0
    ensures Survivor(rx, pm, prev, prevU, 1, 0) == [0]
    ensures Cost(rx, [0]) == Cost(rx, [1])
  {
    TieCosts(rx);
    TieRow(rx, pm, prev, prevU);
    var row := [pm[1, 0], pm[1, 1], pm[1, 2], pm[1, 3]];
    var best := ArgMin(row);
    assert !Below(row[best], row[0]) && row[best] == pm[1, best];
    assert Survivor(rx, pm, prev, prevU, 1, 0) == Survivor(rx, pm, prev, prevU, 0, 0) + [prevU[1, 0]];
  }

  /** Row 1 after a received pair 10 or 01. */
  lemma TieRow(rx: seq<Bit>, pm: array2<Metric>, prev: array2<int>, prevU: array2<int>)
    requires |rx| == 2 && rx[0] != rx[1] && ForwardFilled(rx, pm, prev, prevU)
    ensures pm[1, 0] == Reached(1) && prevU[1, 0] == 0 && pm[1, 1] == Reached(1)
    ensures pm[1, 2] == Unreached && pm[1, 3] == Unreached
  {
    TieMetrics(rx[0], rx[1]);
    FirstRow(rx, pm, prev, prevU, 0);
    FirstRow(rx, pm, prev, prevU, 1);
    FirstRow(rx, pm, prev, prevU, 2);
    FirstRow(rx, pm, prev, prevU, 3);
  }

  /** Row 1 of the forward pass: states 0 and 1 are reached through the two edges out of
      the start state, with their branch metrics, and states 2 and 3 stay unreached. */
  lemma FirstRow(rx: seq<Bit>, pm: array2<Metric>, prev: array2<int>, prevU: array2<int>, q: State)
    requires ForwardFilled(rx, pm, prev, prevU) && |rx| >= 2
    ensures Choice(pm[1, q], prev[1, q], prevU[1, q]) ==
              if q == 0 then Choice(Reached(BranchMetric(0, 0, rx[0], rx[1])), 0, 0)
              else if q == 1 then Choice(Reached(BranchMetric(0, 1, rx[0], rx[1])), 0, 1)
              else Choice(Unreached, -1, -1)
  {
    var row := [pm[0, 0], pm[0, 1], pm[0, 2], pm[0, 3]];
    assert row == [Reached(0), Unreached, Unreached, Unreached];
    assert Choice(pm[1, q], prev[1, q], prevU[1, q]) == Scan(row, rx[0], rx[1], q, 8);
    StartRowSkips(row, rx[0], rx[1], q);
    StartRow(row, rx[0], rx[1], q);
  }

  /** Both edges out of the start state lie at distance 1 from a received pair 10 or 01. */
  lemma TieMetrics(r1: Bit, r0: Bit)
    requires r1 != r0
    ensures BranchMetric(0, 0, r1, r0) == 1 && BranchMetric(0, 1, r1, r0) == 1
  {
    StartEdges(0, 0);
    StartEdges(0, 1);
  }

  /** Both one-bit hypotheses lie at distance 1 from a received pair 10 or 01: inputs 0 and 1
      encode to 00 and 11. */
  lemma TieCosts(rx: seq<Bit>)
    requires |rx| == 2 && rx[0] != rx[1]
    ensures Cost(rx, [0]) == 1 && Cost(rx, [1]) == 1
  {
    assert Encode([0]) == [0, 0] && Encode([1]) == [1, 1];
    assert rx[..2] == rx == [rx[0], rx[1]];
    PairDistance(0, 0, rx[0], rx[1]);
    PairDistance(1, 1, rx[0], rx[1]);
  }

  /** The first row of the forward pass: from the start row only the two edges out of state 0
      are scanned, so states 0 and 1 are reached through them and states 2 and 3 are not. */
  lemma StartRow(row: seq<Metric>, r1: Bit, r0: Bit, q: State)
    requires row == [Reached(0), Unreached, Unreached, Unreached]
    ensures Scan(row, r1, r0, q, 2) ==
              if q == 0 then Choice(Reached(BranchMetric(0, 0, r1, r0)), 0, 0)
              else if q == 1 then Choice(Reached(BranchMetric(0, 1, r1, r0)), 0, 1)
              else Choice(Unreached, -1, -1)
  {
    Predecessors(0, 0, 0);
    Predecessors(1, 0, 1);
    assert row[0] == Reached(0) && row[1] == Unreached;
    assert Scan(row, r1, r0, q, 1) == Step(Choice(Unreached, -1, -1), row, r1, r0, q, 0, 0);
    assert Scan(row, r1, r0, q, 2) == Step(Scan(row, r1, r0, q, 1), row, r1, r0, q, 0, 1);
    if q == 0 {
      assert Scan(row, r1, r0, q, 1) == Choice(Reached(BranchMetric(0, 0, r1, r0)), 0, 0);
    } else if q == 1 {
      assert Scan(row, r1, r0, q, 1) == Choice(Unreached, -1, -1);
    } else {
      assert Scan(row, r1, r0, q, 1) == Choice(Unreached, -1, -1);
    }
  }

  /** A most-likely decision costs no more than any hypothesis of the same length. */
  lemma Optimal(rx: seq<Bit>, uhat: seq<Bit>, v: seq<Bit>)
    requires MostLikely(rx, uhat) && |v| == |rx| / 2
    ensures |uhat| == |v| && Cost(rx, uhat) <= Cost(rx, v)
  {
  }

  /** Noiseless round trip: a most-likely decision for an exact encoding is the input itself. */
  lemma NoiselessRoundTrip(bits: seq<Bit>, uhat: seq<Bit>)
    requires MostLikely(Encode(bits), uhat)
    ensures uhat == bits
  {
    var rx := Encode(bits);
    Optimal(rx, uhat, bits);
    assert rx[..2 * |bits|] == rx;
    DistanceZero(Encode(bits), rx);
    assert Cost(rx, uhat) == 0;
    DistanceZero(Encode(uhat), rx);
    EncodeInjective(uhat, bits);
  }

  /** With the zero tail added, the payload is the prefix of a noiseless decision. */
  lemma TailedRoundTrip(payload: seq<Bit>, uhat: seq<Bit>)
    requires MostLikely(Encode(ReadmeArtifacts.AddTail(payload, K)), uhat)
    ensures uhat[..|payload|] == payload
  {
    NoiselessRoundTrip(ReadmeArtifacts.AddTail(payload, K), uhat);
  }

  /** Index of the first position where two different strings of the same length differ. */
  function FirstDifference(a: seq<Bit>, b: seq<Bit>): (k: nat)
    requires |a| == |b| && a != b
    ensures k < |a| && a[k] != b[k]
    ensures forall i :: 0 <= i < k ==> a[i] == b[i]
  {
    if a[0] != b[0] then 0
    else
      assert a == [a[0]] + a[1..] && b == [b[0]] + b[1..];
      1 + FirstDifference(a[1..], b[1..])
  }

  /** Any other input sequence is at distance at least 2 from a codeword with one flipped bit
      outside the last symbol: its encoding first departs at the first differing input with
      the pair 11 against the original's, and, unless that input is the last one, with exactly
      one more bit in the next pair. */
  lemma OthersAreFar(coded: seq<Bit>, rx: seq<Bit>, u: seq<Bit>, p: nat, v: seq<Bit>)
    requires coded == Encode(u) && p + 2 < |coded| && rx == Flip(coded, p)
    requires |v| == |u| && v != u
    ensures Cost(rx, v) >= 2
  {
    var a := Encode(v);
    assert rx[..2 * |v|] == rx;
    var k := FirstDifference(u, v);
    DivergeAt(u, v, k);
    if k + 1 < |u| {
      DivergeNext(u, v, k);
      var j := if coded[2 * k + 2] != a[2 * k + 2] then 2 * k + 2 else 2 * k + 3;
      if p == 2 * k {
        TwoMismatches(a, rx, 2 * k + 1, j);
      } else if p == 2 * k + 1 {
        TwoMismatches(a, rx, 2 * k, j);
      } else {
        TwoMismatches(a, rx, 2 * k, 2 * k + 1);
      }
    } else {
      TwoMismatches(a, rx, 2 * k, 2 * k + 1);
    }
  }

  /** The transmitted input costs exactly 1 against its encoding with one bit flipped. */
  lemma FlippedCost(coded: seq<Bit>, rx: seq<Bit>, u: seq<Bit>, p: nat)
    requires coded == Encode(u) && p < |coded| && rx == Flip(coded, p)
    ensures Cost(rx, u) == 1
  {
    assert rx[..2 * |u|] == rx;
    FlipDistance(coded, p);
  }

  /** Only the transmitted input lies within distance 1 of its encoding with one bit flipped
      outside the last symbol. */
  lemma OnlyNearInput(coded: seq<Bit>, rx: seq<Bit>, u: seq<Bit>, p: nat, v: seq<Bit>)
    requires coded == Encode(u) && p + 2 < |coded| && rx == Flip(coded, p)
    requires |v| == |u| && Cost(rx, v) <= 1
    ensures v == u
  {
    if v != u {
      OthersAreFar(coded, rx, u, p, v);
    }
  }

  /** A single flipped bit of the coded stream outside the last symbol is corrected: the only
      most-likely decision is the transmitted input. */
  lemma SingleFlipCorrected(coded: seq<Bit>, rx: seq<Bit>, u: seq<Bit>, p: nat, uhat: seq<Bit>)
    requires coded == Encode(u) && p + 2 < |coded| && rx == Flip(coded, p)
    requires MostLikely(rx, uhat)
    ensures uhat == u
  {
    Optimal(rx, uhat, u);
    FlippedCost(coded, rx, u, p);
    OnlyNearInput(coded, rx, u, p, uhat);
  }
}

