/** The occupancy estimate of main_yolo.py (duplicated in detection.py): a
    detector loop that publishes the number of people in the latest frame,
    a second loop that samples that number six times into `average_counts`
    and then publishes `wait_time = int(sum / len * 2)` (two minutes per
    person) and clears the window, and the `get_count` read of both values.

    The module globals become the fields of `OccupancyMonitor`; every method
    is one pass of the corresponding loop body. `FlushValue` is the reference
    definition of the published wait, and the lemmas below say what it is in
    integer terms and how it is bounded. */
module Occupancy {
  import opened Seqs

  /** `PERSON_CLASS_ID`: the class id the detector gives to a person. */
  const PersonClassId: int := 0
  /** The number of samples taken before each flush (`range(6)`). */
  const WindowSize: nat := 6
  /** Minutes of waiting each person in the window stands for. */
  const MinutesPerPerson: nat := 2

  // ---------------------------------------------------------------------
  // The person count of one frame
  // ---------------------------------------------------------------------

  /** `len([box for box in results.boxes if int(box.cls[0]) == PERSON_CLASS_ID])`
      for the class ids of a frame's boxes, in detector order. */
  function PersonCount(classIds: seq<int>): nat {
    |Filter(classIds, (c: int) => c == PersonClassId)|
  }

  /** The count rises by one exactly for each person box. */
  lemma PersonCountAppend(classIds: seq<int>, c: int)
    ensures PersonCount(classIds + [c]) == PersonCount(classIds) + (if c == PersonClassId then 1 else 0)
  {
    var p := (c: int) => c == PersonClassId;
    assert (classIds + [c])[..|classIds + [c]| - 1] == classIds;
    assert Filter(classIds + [c], p) == if p(c) then Filter(classIds, p) + [c] else Filter(classIds, p);
  }

  /** The count is at most the number of boxes; it is the number of boxes
      exactly when every box is a person, and 0 exactly when none is. */
  lemma {:induction false} PersonCountBounds(classIds: seq<int>)
    ensures PersonCount(classIds) <= |classIds|
    ensures PersonCount(classIds) == |classIds| <==> forall i :: 0 <= i < |classIds| ==> classIds[i] == PersonClassId
    ensures PersonCount(classIds) == 0 <==> forall i :: 0 <= i < |classIds| ==> classIds[i] != PersonClassId
    decreases |classIds|
  {
    if classIds != [] {
      var init := classIds[..|classIds| - 1];
      var c := classIds[|classIds| - 1];
      assert classIds == init + [c];
      PersonCountBounds(init);
      PersonCountAppend(init, c);
      assert forall i :: 0 <= i < |init| ==> init[i] == classIds[i];
    }
  }

  // ---------------------------------------------------------------------
  // The published wait of a window of samples
  // ---------------------------------------------------------------------

  /** `sum(w)` */
  function Sum(w: seq<nat>): nat
    decreases |w|
  {
    if w == [] then 0 else Sum(w[..|w| - 1]) + w[|w| - 1]
  }

  /** `max(w)`, and 0 for the empty window. */
  function Max(w: seq<nat>): (m: nat)
    ensures forall i :: 0 <= i < |w| ==> w[i] <= m
    ensures w != [] ==> exists i :: 0 <= i < |w| && w[i] == m
    decreases |w|
  {
    if w == [] then 0
    else
      var m := Max(w[..|w| - 1]);
      assert forall i :: 0 <= i < |w| - 1 ==> w[..|w| - 1][i] == w[i];
      if w[|w| - 1] > m then w[|w| - 1] else m
  }

  /** Python's `int(x)` on a float: truncation toward zero. */
  function Trunc(x: real): (r: int)
    ensures x >= 0.0 ==> 0 <= r && r as real <= x < r as real + 1.0
    ensures x < 0.0 ==> r <= 0 && r as real - 1.0 < x <= r as real
  {
    if x >= 0.0 then x.Floor else -((-x).Floor)
  }

  /** `int(sum(w) / len(w) * 2)`, the value a flush publishes. */
  function FlushValue(w: seq<nat>): int
    requires |w| > 0
  {
    Trunc((Sum(w) as real / |w| as real) * (MinutesPerPerson as real))
  }

  /** For a non-empty window the published wait is twice the sum divided by
      the window length in integer (floor) division: the float average adds
      no error of its own. */
  lemma FlushValueIsIntegerDivision(w: seq<nat>)
    requires |w| > 0
    ensures FlushValue(w) == (MinutesPerPerson * Sum(w)) / |w|
  {
    TruncOfScaledAverage(Sum(w), |w|);
  }

  /** `int(sum / n * 2) == (2 * sum) // n` for a non-negative sum. */
  lemma TruncOfScaledAverage(sum: nat, n: nat)
    requires n > 0
    ensures Trunc((sum as real / n as real) * (MinutesPerPerson as real)) == (MinutesPerPerson * sum) / n
  {
    var t := MinutesPerPerson * sum;
    var q := t / n;
    ScaleQuotient(sum as real, n as real, MinutesPerPerson as real);
    assert (sum as real) * (MinutesPerPerson as real) == t as real;
    assert t == q * n + t % n;
    RealQuotientBounds(t, n, q);
  }

  /** `a / b * c == a * c / b` */
  lemma ScaleQuotient(a: real, b: real, c: real)
    requires b != 0.0
    ensures (a / b) * c == (a * c) / b
  {
  }

  /** Integer bounds on `t` carry over to its real quotient by `n`. */
  lemma RealQuotientBounds(t: int, n: int, q: int)
    requires n > 0 && q * n <= t < (q + 1) * n
    ensures q as real <= t as real / n as real < q as real + 1.0
  {
    var y := t as real / n as real;
    assert y * n as real == t as real;
    assert (q * n) as real == (q as real) * (n as real);
    assert ((q + 1) * n) as real == (q as real + 1.0) * (n as real);
    if y < q as real {
      MulStrictlyMonotone(y, q as real, n as real);
      assert false;
    }
    if y >= q as real + 1.0 {
      MulMonotone(q as real + 1.0, y, n as real);
      assert false;
    }
  }

  lemma MulStrictlyMonotone(a: real, b: real, c: real)
    requires a < b && c > 0.0
    ensures a * c < b * c
  {
  }

  lemma MulMonotone(a: real, b: real, c: real)
    requires a <= b && c > 0.0
    ensures a * c <= b * c
  {
  }

  /** A window never sums to more than its length times its largest sample. */
  lemma {:induction false} SumAtMostLengthTimesMax(w: seq<nat>)
    ensures Sum(w) <= |w| * Max(w)
    decreases |w|
  {
    if w != [] {
      var init := w[..|w| - 1];
      var m, m' := Max(w), Max(init);
      SumAtMostLengthTimesMax(init);
      assert m' <= m by {
        assert forall i :: 0 <= i < |init| ==> init[i] == w[i];
        if init != [] {
          var i :| 0 <= i < |init| && init[i] == m';
          assert w[i] <= m;
        }
      }
      assert Sum(w) == Sum(init) + w[|w| - 1];
      SumStep(Sum(init), |init|, m', w[|w| - 1], m);
    }
  }

  /** The arithmetic of one step of the induction above. */
  lemma SumStep(sum: nat, n: nat, m': nat, x: nat, m: nat)
    requires sum <= n * m' && m' <= m && x <= m
    ensures sum + x <= (n + 1) * m
  {
    assert n * m' <= n * m;
  }

  /** The published wait is never negative and never more than two minutes
      per person of the fullest sample. */
  lemma FlushValueBounds(w: seq<nat>)
    requires |w| > 0
    ensures 0 <= FlushValue(w) <= MinutesPerPerson * Max(w)
  {
    FlushValueIsIntegerDivision(w);
    SumAtMostLengthTimesMax(w);
    DoubledBound(Sum(w), |w|, Max(w));
  }

  /** `sum <= n * m` gives `0 <= (2 * sum) / n <= 2 * m`. */
  lemma DoubledBound(sum: nat, n: nat, m: nat)
    requires n > 0 && sum <= n * m
    ensures 0 <= (MinutesPerPerson * sum) / n <= MinutesPerPerson * m
  {
    assert MinutesPerPerson * sum <= n * (MinutesPerPerson * m);
    DivAtMost(MinutesPerPerson * sum, n, MinutesPerPerson * m);
  }

  /** `t <= n * b` gives `t / n <= b`. */
  lemma DivAtMost(t: nat, n: nat, b: nat)
    requires n > 0 && t <= n * b
    ensures t / n <= b
  {
    var q := t / n;
    assert q * n <= t;
  }

  /** Six samples 2, 3, 4, 3, 2, 4 average 3 people and publish 6 minutes. */
  lemma FlushScenario()
    ensures FlushValue([2, 3, 4, 3, 2, 4]) == 6
  {
    FlushValueIsIntegerDivision([2, 3, 4, 3, 2, 4]);
    SumAppend([], 2);
    SumAppend([2], 3);
    SumAppend([2, 3], 4);
    SumAppend([2, 3, 4], 3);
    SumAppend([2, 3, 4, 3], 2);
    SumAppend([2, 3, 4, 3, 2], 4);
    assert [2, 3, 4, 3, 2] + [4] == [2, 3, 4, 3, 2, 4];
    assert [2, 3, 4, 3] + [2] == [2, 3, 4, 3, 2];
    assert [2, 3, 4] + [3] == [2, 3, 4, 3];
    assert [2, 3] + [4] == [2, 3, 4];
    assert [2] + [3] == [2, 3];
    assert [] + [2] == [2];
  }

  /** A sample appended to the window adds to its sum. */
  lemma SumAppend(w: seq<nat>, x: nat)
    ensures Sum(w + [x]) == Sum(w) + x
  {
    assert (w + [x])[..|w|] == w;
  }

  // ---------------------------------------------------------------------
  // The globals, shared by the detector loop, the sampling loop and the
  // `/api/count` handler
  // ---------------------------------------------------------------------

  class OccupancyMonitor {
    /** `person_count` */
    var personCount: nat
    /** `average_counts` */
    var averageCounts: seq<nat>
    /** `wait_time`, in minutes */
    var waitTime: int

    /** The window holds at most one round of samples, and the published
        wait is never negative. */
    ghost predicate Valid()
      reads this
    {
      |averageCounts| <= WindowSize && waitTime >= 0
    }

    /** The globals at import time. */
    constructor ()
      ensures Valid()
      ensures personCount == 0 && averageCounts == [] && waitTime == 0
    {
      personCount := 0;
      averageCounts := [];
      waitTime := 0;
    }

    /** One frame of `detect_people`, given the class ids of the frame's
        boxes: the count of person boxes is published and the current wait
        is read for display, without being changed. */
    method DetectPeople(classIds: seq<int>) returns (currentWaitTime: int)
      requires Valid()
      modifies this`personCount
      ensures Valid()
      ensures personCount == PersonCount(classIds)
      ensures currentWaitTime == waitTime
    {
      var personDetections := Filter(classIds, (c: int) => c == PersonClassId);
      personCount := |personDetections|;
      currentWaitTime := waitTime;
    }

    /** One sample of `calculate_wait_time`: the current person count is
        appended at the end of the window. */
    method Tick()
      requires Valid() && |averageCounts| < WindowSize
      modifies this`averageCounts
      ensures Valid()
      ensures averageCounts == old(averageCounts) + [personCount]
    {
      averageCounts := averageCounts + [personCount];
    }

    /** The end of a round: the average of the window, doubled and truncated,
        is published as the wait and the window is emptied. */
    method Flush()
      requires Valid() && |averageCounts| > 0
      modifies this`waitTime, this`averageCounts
      ensures Valid()
      ensures waitTime == FlushValue(old(averageCounts)) && averageCounts == []
    {
      var avg := Sum(averageCounts) as real / |averageCounts| as real;
      waitTime := Trunc(avg * (MinutesPerPerson as real));
      FlushValueBounds(old(averageCounts));
      averageCounts := [];
    }

    /** One round of `calculate_wait_time` interleaved with the detector:
        `frames[k]` is the last frame the detector handled before the
        `k`-th sample (only the last one matters, since each frame overwrites
        the count). Six samples are taken, so the flush never divides by
        zero, and the wait published is the flush of those six counts. */
    method WaitTimeRound(frames: seq<seq<int>>)
      requires Valid() && averageCounts == [] && |frames| == WindowSize
      modifies this
      ensures Valid() && averageCounts == []
      ensures personCount == PersonCount(frames[WindowSize - 1])
      ensures waitTime == FlushValue(seq(WindowSize, k requires 0 <= k < WindowSize => PersonCount(frames[k])))
    {
      for k := 0 to WindowSize
        invariant Valid() && |averageCounts| == k
        invariant averageCounts == seq(k, j requires 0 <= j < k => PersonCount(frames[j]))
        invariant k > 0 ==> personCount == PersonCount(frames[k - 1])
      {
        var shown := DetectPeople(frames[k]);
        Tick();
      }
      Flush();
    }

    /** `get_count`: the current count and wait, with no change of state. */
    method GetCount() returns (count: nat, wait: int)
      ensures count == personCount && wait == waitTime
    {
      count := personCount;
      wait := waitTime;
    }
  }

  /** A full window of samples of the same count publishes two minutes per
      person of that count. */
  lemma SteadyWindow(w: seq<nat>, c: nat)
    requires |w| == WindowSize && forall i :: 0 <= i < |w| ==> w[i] == c
    ensures FlushValue(w) == MinutesPerPerson * c
  {
    FlushValueIsIntegerDivision(w);
    SumOfEqual(w, c);
    assert Sum(w) == 6 * c;
  }

  /** A window whose samples all equal `c` sums to its length times `c`. */
  lemma {:induction false} SumOfEqual(w: seq<nat>, c: nat)
    requires forall i :: 0 <= i < |w| ==> w[i] == c
    ensures Sum(w) == |w| * c
    decreases |w|
  {
    if w != [] {
      SumOfEqual(w[..|w| - 1], c);
    }
  }
}
