/** The notifications the export worker sends to the window (the three
    signals of Communicate), and the progress values they carry. */
module Signals {

  /** `update_prog` carrying table index i of n, `wait`, and `done`. */
  datatype Notification = Progress(index: nat, total: nat) | Wait | Done

  /** The progress value the worker emits after table i of n: i / n * 100,
      as an exact real (the code computes it in floating point). */
  function Percent(i: nat, n: nat): real
    requires n > 0
  {
    (i as real) / (n as real) * 100.0
  }

  /** The progress notifications of the first m tables out of n. */
  function ProgressLog(m: nat, n: nat): (log: seq<Notification>)
    ensures |log| == m
  {
    if m == 0 then [] else ProgressLog(m - 1, n) + [Progress(m - 1, n)]
  }

  /** Emitting table m's progress after a log ending in the first m tables'
      extends it to the first m + 1. */
  lemma ProgressLogAppend(log0: seq<Notification>, m: nat, n: nat)
    ensures log0 + ProgressLog(m + 1, n) == (log0 + ProgressLog(m, n)) + [Progress(m, n)]
  {
    assert ProgressLog(m + 1, n) == ProgressLog(m, n) + [Progress(m, n)];
  }

  /** The i-th notification of a progress log is the one for table i. */
  lemma {:induction false} ProgressLogAt(m: nat, n: nat)
    ensures forall i :: 0 <= i < m ==> ProgressLog(m, n)[i] == Progress(i, n)
  {
    if m > 0 {
      ProgressLogAt(m - 1, n);
    }
  }

  lemma PercentBelow(a: nat, b: nat, n: nat)
    requires a < b && n > 0
    ensures Percent(a, n) < Percent(b, n)
  {
    var x, y, d := a as real, b as real, n as real;
    assert y / d - x / d == (y - x) / d;
    assert (y - x) / d > 0.0;
  }

  /** Of the first m <= n tables the emitted values start at 0, rise
      strictly and stay below 100. */
  lemma ProgressValues(m: nat, n: nat)
    requires 0 < n && m <= n
    ensures forall i :: 0 <= i < m ==> ProgressLog(m, n)[i].Progress? && ProgressLog(m, n)[i].total == n
    ensures m > 0 ==> Percent(ProgressLog(m, n)[0].index, n) == 0.0
    ensures forall a, b :: 0 <= a < b < m ==>
      Percent(ProgressLog(m, n)[a].index, n) < Percent(ProgressLog(m, n)[b].index, n)
    ensures forall i :: 0 <= i < m ==> Percent(ProgressLog(m, n)[i].index, n) < 100.0
  {
    ProgressLogAt(m, n);
    forall a, b | 0 <= a < b < m
      ensures Percent(ProgressLog(m, n)[a].index, n) < Percent(ProgressLog(m, n)[b].index, n)
    {
      PercentBelow(a, b, n);
    }
    forall i | 0 <= i < m
      ensures Percent(ProgressLog(m, n)[i].index, n) < 100.0
    {
      PercentBelow(i, n, n);
    }
  }
}
