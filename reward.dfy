/** Reward building blocks of src/reward.py: `bit_count` and the visual
    novelty term `ExplorationReward`.

    The hnswlib index of the source is modelled as the sequence of stored
    vectors (the label of a vector is its position, since labels are handed
    out as the current count) with an exact, brute-force nearest-neighbour
    query over an abstract distance.  The frame reaches the term as a
    parameter instead of through the state manager's emulator, and the
    `RewardManager` aggregator is in module RewardAggregation, which knows
    every term kind. */
module Reward {
  import opened Wrappers
  import opened VisualUtil
  import Emulator

  /** The number of one bits of n. */
  function Popcount(n: nat): nat {
    if n == 0 then 0 else n % 2 + Popcount(n / 2)
  }

  lemma {:induction false} PopcountBound(n: nat, k: nat)
    requires n < Emulator.Pow(2, k)
    ensures Popcount(n) <= k
  {
    if n > 0 {
      assert k > 0;
      PopcountBound(n / 2, k - 1);
    }
  }

  /** `bit_count(bits)`: the number of "1" characters of `bin(bits)`.  It is
      only applied to memory reads, which are never negative. */
  function BitCount(bits: nat): (r: nat)
    ensures r <= bits
    ensures r == 0 <==> bits == 0
    ensures bits < 256 ==> r <= 8
  {
    PopcountAtMost(bits);
    PopcountOfByte(bits);
    Popcount(bits)
  }

  lemma PopcountOfByte(n: nat)
    ensures n < 256 ==> Popcount(n) <= 8
  {
    if n < 256 {
      assert Emulator.Pow(2, 8) == 256;
      PopcountBound(n, 8);
    }
  }

  lemma {:induction false} PopcountAtMost(n: nat)
    ensures Popcount(n) <= n
    ensures Popcount(n) == 0 <==> n == 0
  {
    if n > 0 {
      PopcountAtMost(n / 2);
    }
  }

  /** The bits `read_bit` reports for a byte add up to its `bit_count`. */
  lemma {:induction false} BitCountOfReadBits(mem: Emulator.Memory, address: int)
    ensures BitCount(mem(address)) == BitsSet(mem(address), 8)
  {
    PopcountBySlices(mem(address), 8);
    assert Emulator.Pow(2, 8) == 256;
    assert mem(address) / 256 == 0;
  }

  /** The number of the first n bits of x that are set, read as `(x >> b) & 1`. */
  function BitsSet(x: nat, n: nat): nat {
    if n == 0 then 0 else BitsSet(x, n - 1) + Emulator.Mask(Emulator.ShiftRight(x, n - 1), 1)
  }

  lemma {:induction false} PopcountBySlices(x: nat, n: nat)
    ensures Popcount(x) == BitsSet(x, n) + Popcount(x / Emulator.Pow(2, n))
  {
    if n > 0 {
      PopcountBySlices(x, n - 1);
      var p := Emulator.Pow(2, n - 1);
      var q := x / p;
      assert Emulator.Pow(2, 1) == 2;
      assert Emulator.Mask(Emulator.ShiftRight(x, n - 1), 1) == q % 2;
      DivDiv(x, p);
      assert Emulator.Pow(2, n) == p * 2;
    }
  }

  lemma DivDiv(x: nat, p: nat)
    requires p > 0
    ensures x / p / 2 == x / (p * 2)
  {
    var q := x / p;
    assert x == q * p + x % p;
    assert q == (q / 2) * 2 + q % 2;
    assert x == (q / 2) * (p * 2) + ((q % 2) * p + x % p);
    Emulator.DivModUnique(x, p * 2, q / 2, (q % 2) * p + x % p);
  }

  /** `vec_dim`, `num_elements` and `output_shape` of ExplorationReward */
  const VecDim: nat := 4320
  const NumElements: nat := 20000
  const CompressedShape := Shape(36, 40, 3)

  /** A flattened compressed frame (uint8 values cast to float32, which represents them exactly). */
  type FrameVec = seq<int>

  /** The index's distance (hnswlib's "l2" space reports squared Euclidean distance). */
  type Distance = (FrameVec, FrameVec) -> real

  /** The vector the index stores for a frame. */
  function FrameVector(compress: Compressor, frame: Image): FrameVec {
    Flatten(compress(frame, CompressedShape))
  }

  /** The distance from v to its nearest stored vector (`knn_query(v, k=1)`), found by brute force. */
  function NearestDistance(index: seq<FrameVec>, v: FrameVec, dist: Distance): (d: real)
    requires index != []
    ensures exists i :: 0 <= i < |index| && d == dist(v, index[i])
    ensures forall i :: 0 <= i < |index| ==> d <= dist(v, index[i])
  {
    if |index| == 1 then dist(v, index[0])
    else
      var rest := NearestDistance(index[..|index| - 1], v, dist);
      var last := dist(v, index[|index| - 1]);
      if last < rest then last else rest
  }

  /** A vector is novel when the index is empty or when even its nearest stored vector is farther than the threshold. */
  predicate Novel(index: seq<FrameVec>, v: FrameVec, threshold: real, dist: Distance) {
    index == [] || NearestDistance(index, v, dist) > threshold
  }

  /** The index after one query-and-maybe-insert, capacity aside. */
  function Observe(index: seq<FrameVec>, v: FrameVec, threshold: real, dist: Distance): (r: seq<FrameVec>)
    ensures r == index || r == index + [v]
    ensures r == index + [v] <==> forall i :: 0 <= i < |index| ==> dist(v, index[i]) > threshold
  {
    if Novel(index, v, threshold, dist) then index + [v] else index
  }

  /** The index after observing `vs` in order. */
  function ObserveAll(index: seq<FrameVec>, vs: seq<FrameVec>, threshold: real, dist: Distance): seq<FrameVec>
    decreases |vs|
  {
    if vs == [] then index
    else Observe(ObserveAll(index, vs[..|vs| - 1], threshold, dist), vs[|vs| - 1], threshold, dist)
  }

  /** Vectors that are pairwise farther apart than the threshold are all kept, in order. */
  lemma {:induction false} ObserveAllDistinct(vs: seq<FrameVec>, threshold: real, dist: Distance)
    requires forall i, j :: 0 <= j < i < |vs| ==> dist(vs[i], vs[j]) > threshold
    ensures ObserveAll([], vs, threshold, dist) == vs
  {
    if vs != [] {
      var init, last := vs[..|vs| - 1], vs[|vs| - 1];
      ObserveAllDistinct(init, threshold, dist);
      assert forall i :: 0 <= i < |init| ==> dist(last, init[i]) > threshold by {
        forall i | 0 <= i < |init| ensures dist(last, init[i]) > threshold {
          assert init[i] == vs[i];
        }
      }
      assert Observe(init, last, threshold, dist) == init + [last];
      assert init + [last] == vs;
    }
  }

  /** Observing the same vector again and again after the first time keeps exactly one copy,
      provided a vector is within the threshold of itself. */
  lemma {:induction false} ObserveAllRepeated(v: FrameVec, n: nat, threshold: real, dist: Distance)
    requires n > 0 && dist(v, v) <= threshold
    ensures ObserveAll([], seq(n, _ => v), threshold, dist) == [v]
  {
    if n > 1 {
      ObserveAllRepeated(v, n - 1, threshold, dist);
      assert seq(n, _ => v)[..n - 1] == seq(n - 1, _ => v);
    } else {
      assert seq(n, _ => v)[..n - 1] == [];
    }
  }

  /** `calculate`'s formula for an index of `size` vectors. */
  function ExplorationValue(size: nat, levelsSatisfied: bool, baseExplore: real, exploreWeight: real): (r: real)
    ensures !levelsSatisfied ==> r == size as real * (exploreWeight * 0.005)
    ensures levelsSatisfied ==> r == baseExplore * (exploreWeight * 0.005) + size as real * (exploreWeight * 0.01)
  {
    var preRew := exploreWeight * 0.005;
    var postRew := exploreWeight * 0.01;
    var base := (if levelsSatisfied then baseExplore else size as real) * preRew;
    var post := (if levelsSatisfied then size as real else 0.0) * postRew;
    base + post
  }

  /** With a non-negative weight the reward grows with the index, whatever the gating flag. */
  lemma ExplorationValueMonotone(s1: nat, s2: nat, levelsSatisfied: bool, baseExplore: real, exploreWeight: real)
    requires s1 <= s2 && exploreWeight >= 0.0
    ensures ExplorationValue(s1, levelsSatisfied, baseExplore, exploreWeight) <= ExplorationValue(s2, levelsSatisfied, baseExplore, exploreWeight)
  {
    var w := exploreWeight;
    assert s1 as real * (w * 0.005) <= s2 as real * (w * 0.005);
    assert s1 as real * (w * 0.01) <= s2 as real * (w * 0.01);
  }

  /** The state `calculate` changes: the index (hnswlib's stored items) and the gating flag. */
  datatype ExploreState = ExploreState(index: seq<FrameVec>, levelsSatisfied: bool)

  /** One `calculate` of an exploration term on state s: query and maybe insert
      the frame's vector, then the formula.  Inserting into a full index raises. */
  function ExploreStep(s: ExploreState, frame: Image, similarFrameDist: real, exploreWeight: real, baseExplore: real,
                       compress: Compressor, dist: Distance): (r: (ExploreState, Result<real>))
    ensures r.1.Failure? ==> r.0 == s && |s.index| >= NumElements
    ensures r.1.Success? ==> r.0.index == Observe(s.index, FrameVector(compress, frame), similarFrameDist, dist)
    ensures r.1.Success? ==> r.1.value == ExplorationValue(|r.0.index|, s.levelsSatisfied, baseExplore, exploreWeight)
    ensures r.0.levelsSatisfied == s.levelsSatisfied && |r.0.index| <= |s.index| + 1
  {
    var v := FrameVector(compress, frame);
    if Novel(s.index, v, similarFrameDist, dist) && |s.index| >= NumElements then
      (s, Failure(CapacityError(NumElements)))
    else
      var s' := s.(index := Observe(s.index, v, similarFrameDist, dist));
      (s', Success(ExplorationValue(|s'.index|, s.levelsSatisfied, baseExplore, exploreWeight)))
  }

  class ExplorationReward {
    const name: string
    const similarFrameDist: real
    const exploreWeight: real
    const baseExplore: real
    const compress: Compressor
    const dist: Distance
    /** Never set to true in the source. */
    var levelsSatisfied: bool
    /** The stored vectors in insertion order; the label of a vector is its position. */
    var index: seq<FrameVec>

    constructor (name: string, similarFrameDist: real, compress: Compressor, dist: Distance)
      ensures this.name == name && this.similarFrameDist == similarFrameDist
      ensures this.compress == compress && this.dist == dist
      ensures exploreWeight == 1.0 && baseExplore == 0.0
      ensures State() == ExploreState([], false)
    {
      this.name, this.similarFrameDist := name, similarFrameDist;
      this.compress, this.dist := compress, dist;
      exploreWeight, baseExplore := 1.0, 0.0;
      levelsSatisfied := false;
      index := [];
    }

    function State(): ExploreState
      reads this
    {
      ExploreState(index, levelsSatisfied)
    }

    /** `reset` (`init_knn`): a fresh, empty index. */
    method Reset()
      modifies this
      ensures State() == ExploreState([], old(levelsSatisfied))
    {
      index := [];
    }

    /** `update`: insert the frame's vector when the index is empty or its
        nearest stored vector is farther than `similar_frame_dist`. */
    method Update(frame: Image) returns (o: Outcome)
      modifies this
      ensures levelsSatisfied == old(levelsSatisfied)
      ensures o.Fail? <==> Novel(old(index), FrameVector(compress, frame), similarFrameDist, dist) && |old(index)| >= NumElements
      ensures o.Fail? ==> o.error == CapacityError(NumElements)
      ensures index == if o.Fail? then old(index) else Observe(old(index), FrameVector(compress, frame), similarFrameDist, dist)
    {
      var frameVec := Flatten(compress(frame, CompressedShape));
      if |index| == 0 {
        o := AddItem(frameVec);
      } else {
        var distance := NearestDistance(index, frameVec, dist);
        if distance > similarFrameDist {
          o := AddItem(frameVec);
        } else {
          o := Pass;
        }
      }
    }

    /** `add_items(v, [get_current_count()])`: raises once the index holds `num_elements` vectors. */
    method AddItem(v: FrameVec) returns (o: Outcome)
      modifies this
      ensures levelsSatisfied == old(levelsSatisfied)
      ensures o.Fail? <==> |old(index)| >= NumElements
      ensures o.Fail? ==> o.error == CapacityError(NumElements)
      ensures index == if o.Fail? then old(index) else old(index) + [v]
    {
      if |index| >= NumElements {
        o := Fail(CapacityError(NumElements));
      } else {
        index := index + [v];
        o := Pass;
      }
    }

    /** `calculate` */
    method Calculate(frame: Image) returns (r: Result<real>)
      modifies this
      ensures (State(), r) == ExploreStep(old(State()), frame, similarFrameDist, exploreWeight, baseExplore, compress, dist)
    {
      var o := Update(frame);
      if o.Fail? {
        return Failure(o.error);
      }
      r := Success(ExplorationValue(|index|, levelsSatisfied, baseExplore, exploreWeight));
      assert State() == ExploreStep(old(State()), frame, similarFrameDist, exploreWeight, baseExplore, compress, dist).0;
    }
  }
}
