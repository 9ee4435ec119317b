/** The photo carousel: an index into the six photos that a timer advances
    cyclically and a dot click sets directly. */
module Gallery {

  /** The number of photos in the carousel. */
  const PhotoCount := 6

  predicate InRange(index: int)
  {
    0 <= index < PhotoCount
  }

  /** One rotation tick: the next photo, wrapping from the last to the
      first. */
  function Advance(index: int): (next: int)
    requires InRange(index)
    ensures InRange(next)
    ensures next == if index == PhotoCount - 1 then 0 else index + 1
  {
    (index + 1) % PhotoCount
  }

  /** The index after k rotation ticks. */
  function AdvanceTimes(index: int, k: nat): (r: int)
    requires InRange(index)
    ensures InRange(r)
  {
    if k == 0 then index else Advance(AdvanceTimes(index, k - 1))
  }

  /** k ticks move the index k places forward, modulo the photo count. */
  lemma {:induction false} AdvanceTimesIsOffset(index: int, k: nat)
    requires InRange(index)
    ensures AdvanceTimes(index, k) == (index + k) % PhotoCount
  {
    if k > 0 {
      AdvanceTimesIsOffset(index, k - 1);
    }
  }

  /** Six ticks from any index come back to it. */
  lemma FullRotation(index: int)
    requires InRange(index)
    ensures AdvanceTimes(index, PhotoCount) == index
  {
    AdvanceTimesIsOffset(index, PhotoCount);
  }

  lemma ModBelowTwoRounds(n: int)
    requires 0 <= n < 2 * PhotoCount
    ensures n % PhotoCount == if n < PhotoCount then n else n - PhotoCount
  {
  }

  /** Within one rotation every photo is shown: some tick among the first
      six reaches any given index. */
  lemma RotationReachesEveryPhoto(index: int, photo: int)
    requires InRange(index) && InRange(photo)
    ensures exists k :: 0 <= k < PhotoCount && AdvanceTimes(index, k) == photo
  {
    var k := if index <= photo then photo - index else photo - index + PhotoCount;
    AdvanceTimesIsOffset(index, k);
    ModBelowTwoRounds(index + k);
  }

  /** Within one rotation no photo is shown twice: the first six ticks give
      six different indices. */
  lemma RotationRepeatsNoPhoto(index: int, j: nat, k: nat)
    requires InRange(index) && j < k < PhotoCount
    ensures AdvanceTimes(index, j) != AdvanceTimes(index, k)
  {
    AdvanceTimesIsOffset(index, j);
    AdvanceTimesIsOffset(index, k);
    ModBelowTwoRounds(index + j);
    ModBelowTwoRounds(index + k);
  }
}
