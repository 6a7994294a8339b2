/**
 * The fixed unlock schedule `timeSegments` and the two questions the game asks of it:
 * which entry comes after the current duration (`Array.prototype.find`), and how many
 * entries a duration has already reached.
 */
module Schedule {
  import opened Wrappers

  /** Segment lengths in seconds, in unlocking order. */
  const TimeSegments: seq<real> := [0.1, 0.5, 1.0, 2.0, 5.0, 10.0]

  /** The last, longest segment. */
  const LastSegment: real := 10.0

  predicate StrictlyIncreasing(segs: seq<real>)
  {
    forall i, j :: 0 <= i < j < |segs| ==> segs[i] < segs[j]
  }

  /** The schedule is strictly increasing, positive, and ends with `LastSegment`. */
  lemma TimeSegmentsWellFormed()
    ensures StrictlyIncreasing(TimeSegments)
    ensures forall k :: 0 <= k < |TimeSegments| ==> TimeSegments[k] > 0.0
    ensures TimeSegments[|TimeSegments| - 1] == LastSegment
  {
  }

  /**
   * `segs.find(segment => segment > d)`: the entry at the first index whose value exceeds
   * `d`, or nothing when no entry does.
   */
  function FindFirstAbove(segs: seq<real>, d: real): (r: Option<real>)
    ensures r.None? <==> forall k :: 0 <= k < |segs| ==> segs[k] <= d
    ensures r.Some? ==> exists i :: FirstAboveAt(segs, d, i) && segs[i] == r.value
  {
    if segs == [] then None
    else if segs[0] > d then
      assert FirstAboveAt(segs, d, 0);
      Some(segs[0])
    else
      var r := FindFirstAbove(segs[1..], d);
      if r.Some? then
        var i :| FirstAboveAt(segs[1..], d, i) && segs[1..][i] == r.value;
        assert FirstAboveAt(segs, d, i + 1);
        r
      else
        r
  }

  /** Index `i` holds the first entry of `segs` greater than `d`. */
  predicate FirstAboveAt(segs: seq<real>, d: real, i: int)
  {
    0 <= i < |segs| && segs[i] > d && forall j :: 0 <= j < i ==> segs[j] <= d
  }

  /** On an increasing schedule the entry `find` returns is the smallest entry above `d`,
    * and it is one of the schedule's entries. */
  lemma FoundIsSmallestAbove(segs: seq<real>, d: real)
    requires StrictlyIncreasing(segs)
    requires FindFirstAbove(segs, d).Some?
    ensures FindFirstAbove(segs, d).value in segs
    ensures FindFirstAbove(segs, d).value > d
    ensures forall k :: 0 <= k < |segs| && segs[k] > d ==> FindFirstAbove(segs, d).value <= segs[k]
  {
    var i :| FirstAboveAt(segs, d, i) && segs[i] == FindFirstAbove(segs, d).value;
    forall k | 0 <= k < |segs| && segs[k] > d
      ensures segs[i] <= segs[k]
    {
      assert k >= i;
    }
  }

  /** The number of schedule entries that are at most `d`: the segments already unlocked. */
  function CountAtMost(segs: seq<real>, d: real): (n: nat)
    ensures n <= |segs|
  {
    if segs == [] then 0 else (if segs[0] <= d then 1 else 0) + CountAtMost(segs[1..], d)
  }

  /** No entry is at most `d` when every entry exceeds it. */
  lemma {:induction false} CountAtMostNone(segs: seq<real>, d: real)
    requires forall k :: 0 <= k < |segs| ==> segs[k] > d
    ensures CountAtMost(segs, d) == 0
  {
    if segs != [] {
      CountAtMostNone(segs[1..], d);
    }
  }

  /** Every entry is at most `d` when `d` reaches the last entry of an increasing schedule. */
  lemma {:induction false} CountAtMostAll(segs: seq<real>, d: real)
    requires StrictlyIncreasing(segs)
    requires segs != [] && segs[|segs| - 1] <= d
    ensures CountAtMost(segs, d) == |segs|
  {
    if |segs| > 1 {
      assert segs[0] < segs[|segs| - 1];
      CountAtMostAll(segs[1..], d);
    }
  }

  /** Moving from `d` to the next entry `find` returns reaches exactly one more entry. */
  lemma {:induction false} CountAtNextSegment(segs: seq<real>, d: real)
    requires StrictlyIncreasing(segs)
    requires FindFirstAbove(segs, d).Some?
    ensures CountAtMost(segs, FindFirstAbove(segs, d).value) == CountAtMost(segs, d) + 1
  {
    var next := FindFirstAbove(segs, d).value;
    if segs[0] > d {
      assert next == segs[0];
      CountAtMostNone(segs[1..], next);
      CountAtMostNone(segs[1..], d);
    } else {
      assert FindFirstAbove(segs[1..], d) == FindFirstAbove(segs, d);
      FoundIsSmallestAbove(segs, d);
      CountAtNextSegment(segs[1..], d);
    }
  }
}
