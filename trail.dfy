/** The cursor trail: a short list of pointer samples, oldest first, that
    keeps only the most recent seven samples pushed and drops every sample
    three seconds old or older on each cleanup tick. */
module Trail {

  /** One pointer sample: its id, its position and when it was taken (ms). */
  datatype TrailSample = TrailSample(id: int, x: int, y: int, timestamp: int)

  /** A push keeps the previous 6 entries plus the new one. */
  const Kept := 6
  const MaxLength := Kept + 1

  /** Samples this many milliseconds old or older are dropped. */
  const Lifetime := 3000

  function Min(a: int, b: int): int
  {
    if a <= b then a else b
  }

  /** The last n elements of s (all of s when it is shorter). */
  function LastN<T>(s: seq<T>, n: nat): seq<T>
  {
    s[|s| - Min(|s|, n)..]
  }

  /** Append a sample after the last 6 entries: a sliding window of the
      last seven samples of the trail followed by the new one. */
  function Push(trail: seq<TrailSample>, sample: TrailSample): (r: seq<TrailSample>)
    ensures r == LastN(trail + [sample], MaxLength)
    ensures |r| <= MaxLength && r[|r| - 1] == sample
  {
    var tail := if |trail| > Kept then trail[|trail| - Kept..] else trail;
    assert tail + [sample] == (trail + [sample])[|trail| + 1 - Min(|trail| + 1, MaxLength)..];
    tail + [sample]
  }

  /** Push the samples one after another, first to last. */
  function PushAll(trail: seq<TrailSample>, samples: seq<TrailSample>): seq<TrailSample>
    decreases |samples|
  {
    if samples == [] then trail else PushAll(Push(trail, samples[0]), samples[1..])
  }

  lemma LastNAppend<T>(a: seq<T>, b: seq<T>, n: nat)
    ensures LastN(LastN(a, n) + b, n) == LastN(a + b, n)
  {
    if |b| < n {
      assert LastN(LastN(a, n) + b, n) == LastN(a, n - |b|) + b;
      assert LastN(a + b, n) == LastN(a, n - |b|) + b;
    }
  }

  /** However many samples are pushed onto a trail of at most seven, the
      trail ends up holding exactly the last seven of the old trail followed
      by the pushed samples, in order. */
  lemma {:induction false} PushAllKeepsLastSeven(trail: seq<TrailSample>, samples: seq<TrailSample>)
    requires |trail| <= MaxLength
    ensures PushAll(trail, samples) == LastN(trail + samples, MaxLength)
    decreases |samples|
  {
    if samples == [] {
      assert trail + samples == trail;
    } else {
      var s, rest := samples[0], samples[1..];
      PushAllKeepsLastSeven(Push(trail, s), rest);
      calc {
        PushAll(trail, samples);
        PushAll(Push(trail, s), rest);
        LastN(Push(trail, s) + rest, MaxLength);
        LastN(LastN(trail + [s], MaxLength) + rest, MaxLength);
        { LastNAppend(trail + [s], rest, MaxLength); }
        LastN(trail + [s] + rest, MaxLength);
        { assert trail + [s] + rest == trail + samples; }
        LastN(trail + samples, MaxLength);
      }
    }
  }

  /** Starting from an empty trail, n pushes leave exactly the last min(n, 7)
      samples pushed, oldest first. */
  lemma PushAllFromEmpty(samples: seq<TrailSample>)
    ensures |PushAll([], samples)| == Min(|samples|, MaxLength)
    ensures PushAll([], samples) == samples[|samples| - Min(|samples|, MaxLength)..]
  {
    PushAllKeepsLastSeven([], samples);
    assert [] + samples == samples;
  }

  /** A sample survives a cleanup at `now` when it is under three seconds
      old. */
  predicate IsFresh(sample: TrailSample, now: int)
  {
    now - sample.timestamp < Lifetime
  }

  /** The cleanup tick: keep the fresh samples, in their order. */
  function Fresh(trail: seq<TrailSample>, now: int): (r: seq<TrailSample>)
    ensures |r| <= |trail|
  {
    if trail == [] then []
    else (if IsFresh(trail[0], now) then [trail[0]] else []) + Fresh(trail[1..], now)
  }

  /** Ids strictly increase from the oldest sample to the newest. */
  predicate IdsIncreasing(trail: seq<TrailSample>)
  {
    forall i, j :: 0 <= i < j < |trail| ==> trail[i].id < trail[j].id
  }

  /** A cleanup keeps exactly the samples under three seconds old. */
  lemma {:induction false} FreshMembers(trail: seq<TrailSample>, now: int, sample: TrailSample)
    ensures sample in Fresh(trail, now) <==> sample in trail && IsFresh(sample, now)
  {
    if trail != [] {
      FreshMembers(trail[1..], now, sample);
      assert trail == [trail[0]] + trail[1..];
    }
  }

  /** A cleanup keeps the samples in their original order. */
  lemma {:induction false} FreshKeepsOrder(trail: seq<TrailSample>, now: int)
    requires IdsIncreasing(trail)
    ensures IdsIncreasing(Fresh(trail, now))
  {
    if trail != [] {
      var rest := Fresh(trail[1..], now);
      FreshKeepsOrder(trail[1..], now);
      if IsFresh(trail[0], now) {
        forall j | 0 <= j < |rest|
          ensures trail[0].id < rest[j].id
        {
          FreshMembers(trail[1..], now, rest[j]);
        }
      }
    }
  }

  /** A cleanup at a later time after one at an earlier time is the same as
      the later cleanup alone. */
  lemma {:induction false} FreshLater(trail: seq<TrailSample>, earlier: int, later: int)
    requires earlier <= later
    ensures Fresh(Fresh(trail, earlier), later) == Fresh(trail, later)
  {
    if trail != [] {
      FreshLater(trail[1..], earlier, later);
      var head := if IsFresh(trail[0], earlier) then [trail[0]] else [];
      FreshAppend(head, Fresh(trail[1..], earlier), later);
    }
  }

  lemma {:induction false} FreshAppend(a: seq<TrailSample>, b: seq<TrailSample>, now: int)
    ensures Fresh(a + b, now) == Fresh(a, now) + Fresh(b, now)
  {
    if a != [] {
      FreshAppend(a[1..], b, now);
      assert (a + b)[1..] == a[1..] + b;
    } else {
      assert a + b == b;
    }
  }

  /** A second cleanup at the same time changes nothing. */
  lemma FreshIdempotent(trail: seq<TrailSample>, now: int)
    ensures Fresh(Fresh(trail, now), now) == Fresh(trail, now)
  {
    FreshLater(trail, now, now);
  }

  /** A sample 3000 ms old or older is gone after a cleanup. */
  lemma ExpiredIsDropped(trail: seq<TrailSample>, now: int, sample: TrailSample)
    requires now - sample.timestamp >= Lifetime
    ensures sample !in Fresh(trail, now)
  {
    FreshMembers(trail, now, sample);
  }
}
