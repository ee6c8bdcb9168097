/** Soak worker ids: each version's workers take their own segment of ids, so that accounts of
    different versions never collide. Ids are `u32` sums; overflow wraps, as in a release build. */
module SoakWorkers {
  import opened Common

  datatype SoakConfig = SoakConfig(
    numWorkers: nat,
    salt: nat,
    stopHeights: seq<nat>,
    safetyStopBlocks: nat)

  function Wrap32(x: nat): nat {
    x % TWO_32
  }

  /** The config that runs only the last version, on the salt a full run would give it. */
  function LastVersionSoakConfig(config: SoakConfig): Option<SoakConfig> {
    if config.stopHeights == [] then None
    else
      var numVersions := Wrap32(|config.stopHeights|);
      var offset := Wrap32(config.numWorkers * SaturatingSub(numVersions, 1));
      Some(SoakConfig(
        config.numWorkers,
        Wrap32(config.salt + offset),
        [config.stopHeights[|config.stopHeights| - 1]],
        config.safetyStopBlocks))
  }

  /** The id of worker `i` under a salt. */
  function WorkerId(salt: nat, i: nat): nat {
    Wrap32(i + salt)
  }

  /** The salt a full run assigns to version `k`. */
  function SegmentSalt(config: SoakConfig, k: nat): nat {
    Wrap32(config.salt + config.numWorkers * k)
  }

  /** The ids of the workers that run under a config, in spawn order. */
  ghost predicate AreWorkerIds(ids: seq<nat>, config: SoakConfig) {
    && |ids| == config.numWorkers
    && forall i :: 0 <= i < config.numWorkers ==> ids[i] == WorkerId(config.salt, i)
  }

  method SpawnWorkers(numWorkers: nat, salt: nat) returns (ids: seq<nat>)
    ensures |ids| == numWorkers
    ensures forall i :: 0 <= i < numWorkers ==> ids[i] == WorkerId(salt, i)
  {
    ids := [];
    for i := 0 to numWorkers
      invariant |ids| == i
      invariant forall j :: 0 <= j < i ==> ids[j] == WorkerId(salt, j)
    {
      ids := ids + [WorkerId(salt, i)];
    }
  }

  lemma {:induction false} WrapAdds(a: nat, b: nat)
    ensures Wrap32(Wrap32(a) + b) == Wrap32(a + b)
  {
    assert a == TWO_32 * (a / TWO_32) + Wrap32(a);
    assert a + b == TWO_32 * (a / TWO_32) + (Wrap32(a) + b);
  }

  lemma WrapSmall(x: nat)
    requires x < TWO_32
    ensures Wrap32(x) == x
  {
  }

  /** A worker's id: its position on the line of all ids, modulo 2^32. */
  lemma SegmentIds(config: SoakConfig, k: nat, i: nat)
    ensures WorkerId(SegmentSalt(config, k), i) == (config.salt + (config.numWorkers * k + i)) % 0x1_0000_0000
    ensures WorkerId(SegmentSalt(config, k), i) == Wrap32(config.salt + (config.numWorkers * k + i))
  {
    WrapAdds(config.salt + config.numWorkers * k, i);
  }

  /** No two workers of the first `n` versions share an id. */
  ghost predicate SegmentsDisjoint(config: SoakConfig, n: nat) {
    forall k: nat, i: nat, l: nat, j: nat ::
      k < n && l < n && i < config.numWorkers && j < config.numWorkers
      && WorkerId(SegmentSalt(config, k), i) == WorkerId(SegmentSalt(config, l), j)
      ==> k == l && i == j
  }

  lemma {:induction false} PositionInSegments(w: nat, n: nat, k: nat, i: nat)
    requires k < n && i < w
    ensures w * k + i < w * n
  {
    MulMonotone(w, k, n);
  }

  lemma {:induction false} PositionIsUnique(w: nat, k: nat, i: nat, l: nat, j: nat)
    requires i < w && j < w && w * k + i == w * l + j
    ensures k == l && i == j
  {
    MulMonotone(w, k, l);
    MulMonotone(w, l, k);
  }

  lemma {:induction false} WrapSeparates(base: nat, x: nat, y: nat)
    requires x < TWO_32 && y < TWO_32 && Wrap32(base + x) == Wrap32(base + y)
    ensures x == y
  {
    var m, r := (base + x) / TWO_32, (base + y) / TWO_32;
    assert x - y == TWO_32 * (m - r);
  }

  lemma SameIdSamePosition(config: SoakConfig, n: nat, k: nat, i: nat, l: nat, j: nat)
    requires config.numWorkers * n <= TWO_32
    requires k < n && l < n && i < config.numWorkers && j < config.numWorkers
    requires WorkerId(SegmentSalt(config, k), i) == WorkerId(SegmentSalt(config, l), j)
    ensures k == l && i == j
  {
    hide Wrap32, WorkerId, SegmentSalt;
    var w := config.numWorkers;
    SegmentIds(config, k, i);
    SegmentIds(config, l, j);
    PositionInSegments(w, n, k, i);
    PositionInSegments(w, n, l, j);
    WrapSeparates(config.salt, w * k + i, w * l + j);
    PositionIsUnique(w, k, i, l, j);
  }

  /** The worker whose position on the id line is 2^32 takes the id of worker 0 of version 0. */
  lemma WrappedWorkerCollides(config: SoakConfig)
    requires 1 <= config.numWorkers < TWO_32
    ensures WorkerId(SegmentSalt(config, TWO_32 / config.numWorkers), TWO_32 % config.numWorkers)
         == WorkerId(SegmentSalt(config, 0), 0)
  {
    var w := config.numWorkers;
    var l, j := TWO_32 / w, TWO_32 % w;
    SegmentIds(config, 0, 0);
    SegmentIds(config, l, j);
    assert w * l + j == TWO_32;
    assert config.numWorkers * 0 == 0;
    WrapAdds(TWO_32, config.salt);
  }

  /** Ids of different versions collide exactly when there are more workers than u32 values; the
      base salt plays no role, even if adding it overflows. */
  lemma SegmentsDisjointIff(config: SoakConfig, n: nat)
    requires 1 <= config.numWorkers < TWO_32
    ensures SegmentsDisjoint(config, n) <==> config.numWorkers * n <= TWO_32
  {
    hide Wrap32, WorkerId, SegmentSalt;
    var w := config.numWorkers;
    if w * n <= TWO_32 {
      forall k: nat, i: nat, l: nat, j: nat |
        k < n && l < n && i < w && j < w
        && WorkerId(SegmentSalt(config, k), i) == WorkerId(SegmentSalt(config, l), j)
        ensures k == l && i == j
      {
        SameIdSamePosition(config, n, k, i, l, j);
      }
    } else {
      var l, j := TWO_32 / w, TWO_32 % w;
      WrappedWorkerCollides(config);
      MulMonotone(w, l, n);
      MulMonotone(w, n, l);
      assert TWO_32 == w * l + j;
      assert 0 < l < n;
    }
  }

  /** The append run's config is the last version's, on the salt of segment n-1. */
  lemma LastVersionTakesLastSegment(config: SoakConfig)
    requires config.stopHeights != [] && |config.stopHeights| < TWO_32
    ensures var n := |config.stopHeights|;
            LastVersionSoakConfig(config) == Some(SoakConfig(
              config.numWorkers, SegmentSalt(config, n - 1), [config.stopHeights[n - 1]], config.safetyStopBlocks))
  {
    WrapAdds(config.numWorkers * (|config.stopHeights| - 1), config.salt);
    WrapSmall(|config.stopHeights|);
    hide Wrap32;
  }

  /** Its workers share no id with the workers of any historical version. */
  lemma AppendedWorkersAreNew(config: SoakConfig, k: nat, i: nat, j: nat)
    requires config.stopHeights != [] && |config.stopHeights| < TWO_32
    requires config.numWorkers * |config.stopHeights| <= TWO_32
    requires k < |config.stopHeights| - 1 && i < config.numWorkers && j < config.numWorkers
    ensures WorkerId(LastVersionSoakConfig(config).value.salt, i) != WorkerId(SegmentSalt(config, k), j)
  {
    var n := |config.stopHeights|;
    LastVersionTakesLastSegment(config);
    if WorkerId(SegmentSalt(config, n - 1), i) == WorkerId(SegmentSalt(config, k), j) {
      SameIdSamePosition(config, n, n - 1, i, k, j);
      assert false;
    }
  }

  /** While base + W*n fits in u32, no sum wraps: ids are exact. */
  lemma IdsAreExact(config: SoakConfig, n: nat, k: nat, i: nat)
    requires config.salt + config.numWorkers * n <= TWO_32
    requires k < n && i < config.numWorkers
    ensures WorkerId(SegmentSalt(config, k), i) == config.salt + config.numWorkers * k + i
  {
    SegmentIds(config, k, i);
    PositionInSegments(config.numWorkers, n, k, i);
  }
}
