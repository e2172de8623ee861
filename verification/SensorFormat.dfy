/** The order on sizes, and the sensor format chosen by it and by aspect ratio. */
module SensorFormat {
  import opened Bytes

  datatype Size = Size(width: uint32, height: uint32)

  function Area(s: Size): nat {
    s.width * s.height
  }

  /** operator<, with its areas in 64 bits. */
  predicate Less(lhs: Size, rhs: Size) {
    if lhs.width < rhs.width && lhs.height < rhs.height then true
    else if lhs.width >= rhs.width && lhs.height >= rhs.height then false
    else
      var larea := Area(lhs) % 0x1_0000_0000_0000_0000;
      var rarea := Area(rhs) % 0x1_0000_0000_0000_0000;
      if larea < rarea then true
      else if larea > rarea then false
      else lhs.width < rhs.width
  }

  lemma MulMono(a: nat, b: nat, c: nat, d: nat)
    requires a <= c && b <= d
    ensures a * b <= c * d
    ensures a < c && b < d ==> a * b < c * d
  {
    assert a * b <= c * b;
    assert c * b <= c * d;
    if a < c && b < d {
      assert (a + 1) * b == a * b + b;
      assert (a + 1) * b <= c * b;
      assert c * (b + 1) == c * b + c;
      assert c * (b + 1) <= c * d;
    }
  }

  lemma AreaFits(s: Size)
    ensures Area(s) < 0x1_0000_0000_0000_0000
  {
    MulMono(s.width, s.height, 0xFFFF_FFFF, 0xFFFF_FFFF);
  }

  lemma AreaMono(a: Size, b: Size)
    ensures a.width <= b.width && a.height <= b.height ==> Area(a) <= Area(b)
    ensures a.width < b.width && a.height < b.height ==> Area(a) < Area(b)
  {
    if a.width <= b.width && a.height <= b.height {
      MulMono(a.width, a.height, b.width, b.height);
    }
  }

  /** No area wraps, and the order is that of the area and then of the width. */
  lemma LessIsLexicographic(a: Size, b: Size)
    ensures Less(a, b) <==> Area(a) < Area(b) || (Area(a) == Area(b) && a.width < b.width)
  {
    hide Area;
    AreaFits(a);
    AreaFits(b);
    AreaMono(a, b);
    AreaMono(b, a);
  }

  /** A strict weak order, as std::sort needs. */
  lemma LessIsStrictWeakOrder(a: Size, b: Size, c: Size)
    ensures !Less(a, a)
    ensures Less(a, b) && Less(b, c) ==> Less(a, c)
    ensures !Less(a, b) && !Less(b, a) && !Less(b, c) && !Less(c, b) ==> !Less(a, c) && !Less(c, a)
  {
    LessIsLexicographic(a, a);
    LessIsLexicographic(a, b);
    LessIsLexicographic(b, a);
    LessIsLexicographic(b, c);
    LessIsLexicographic(c, b);
    LessIsLexicographic(a, c);
    LessIsLexicographic(c, a);
  }

  /** Different sizes are told apart unless both are zero wide. */
  lemma LessIsTotalIff(a: Size, b: Size)
    ensures !Less(a, b) && !Less(b, a) <==> a == b || (a.width == 0 && b.width == 0)
  {
    LessIsLexicographic(a, b);
    LessIsLexicographic(b, a);
    if a.width == b.width && a.width > 0 && Area(a) == Area(b) {
      MulCancel(a.width, a.height, b.height);
    }
  }

  lemma MulCancel(k: nat, a: nat, b: nat)
    requires k > 0 && k * a == k * b
    ensures a == b
  {
    assert k * (a - b) == 0;
  }

  datatype SizeRange = SizeRange(min: Size, max: Size, hStep: uint32, vStep: uint32)

  predicate Contains(r: SizeRange, s: Size) {
    !(|| s.width < r.min.width || s.width > r.max.width || s.height < r.min.height || s.height > r.max.height
      || (r.hStep != 0 && (s.width - r.min.width) % r.hStep != 0)
      || (r.vStep != 0 && (s.height - r.min.height) % r.vStep != 0))
  }

  /** Some number of steps leads from one value to another; a step of zero allows every value. */
  ghost predicate Reaches(from: nat, step: nat, to: nat) {
    step == 0 || exists x: nat :: to == from + step * x
  }

  lemma StepsReach(from: nat, step: nat, to: nat)
    requires from <= to
    ensures Reaches(from, step, to) <==> step == 0 || (to - from) % step == 0
  {
    if step != 0 {
      if (to - from) % step == 0 {
        assert to == from + step * ((to - from) / step);
      }
      if x: nat :| to == from + step * x {
        Multiple(step, x);
      }
    }
  }

  lemma Multiple(step: nat, x: nat)
    requires step > 0
    ensures step * x % step == 0
  {
    var q, r := step * x / step, step * x % step;
    Quotient(step, x, q, r);
  }

  lemma Quotient(step: nat, x: nat, q: int, r: int)
    requires step * x == step * q + r && 0 <= r < step
    ensures r == 0
  {
    assert step * (x - q) == step * x - step * q == r;
    assert step * (q - x) == -r;
    if x > q {
      MulMono(step, 1, step, x - q);
    } else if x < q {
      MulMono(step, 1, step, q - x);
    }
  }

  /** A range contains the sizes within its bounds that lie on its grid. */
  lemma ContainsIff(r: SizeRange, s: Size)
    ensures
      Contains(r, s) <==>
      && r.min.width <= s.width <= r.max.width && r.min.height <= s.height <= r.max.height
      && Reaches(r.min.width, r.hStep, s.width) && Reaches(r.min.height, r.vStep, s.height)
  {
    if r.min.width <= s.width {
      StepsReach(r.min.width, r.hStep, s.width);
    }
    if r.min.height <= s.height {
      StepsReach(r.min.height, r.vStep, s.height);
    }
  }

  // --- Choosing a sensor format.

  predicate Covers(s: Size, desired: Size) {
    s.width >= desired.width && s.height >= desired.height
  }

  /** What area - desiredArea is in 32 bits, each area being a product in 32 bits. */
  function AreaDiff(s: Size, desired: Size): uint32 {
    (Area(s) % 0x1_0000_0000 - Area(desired) % 0x1_0000_0000) % 0x1_0000_0000
  }

  /** The wrapping cancels out: the difference is exact unless it does not fit itself. */
  lemma AreaDiffExact(s: Size, desired: Size)
    requires Covers(s, desired)
    ensures Area(s) >= Area(desired)
    ensures AreaDiff(s, desired) == (Area(s) - Area(desired)) % 0x1_0000_0000
    ensures Area(s) - Area(desired) < 0x1_0000_0000 <==> AreaDiff(s, desired) == Area(s) - Area(desired)
  {
    MulMono(desired.width, desired.height, s.width, s.height);
    ModDiff(Area(s), Area(desired));
    assert AreaDiff(s, desired) == (Area(s) - Area(desired)) % 0x1_0000_0000;
    hide Area, AreaDiff;
  }

  lemma ModDiff(a: nat, b: nat)
    ensures (a % 0x1_0000_0000 - b % 0x1_0000_0000) % 0x1_0000_0000 == (a - b) % 0x1_0000_0000
  {
  }

  /** dist is the distance between the aspect ratios of a size and of the desired one, however it is rounded. */
  predicate Better(a: Size, b: Size, desired: Size, dist: Size -> real) {
    dist(a) < dist(b) || (dist(a) == dist(b) && AreaDiff(a, desired) < AreaDiff(b, desired))
  }

  /** Size i covers the desired one, no other that does is better, and no earlier one is as good. */
  predicate IsBest(sizes: seq<Size>, desired: Size, dist: Size -> real, i: nat) {
    && i < |sizes| && Covers(sizes[i], desired)
    && (forall j | 0 <= j < |sizes| && Covers(sizes[j], desired) ::
          if j < i then Better(sizes[i], sizes[j], desired, dist) else !Better(sizes[j], sizes[i], desired, dist))
  }

  /** At most one size is the best. */
  lemma BestIsUnique(sizes: seq<Size>, desired: Size, dist: Size -> real, i: nat, j: nat)
    requires IsBest(sizes, desired, dist, i) && IsBest(sizes, desired, dist, j)
    ensures i == j
  {
  }

  /** What the choice is meant to be: the first of the covering sizes that are least in the distance of the
    * ratio and then in area, without any wrapping. */
  predicate IsLeast(sizes: seq<Size>, desired: Size, dist: Size -> real, k: nat) {
    && k < |sizes| && Covers(sizes[k], desired)
    && forall j | 0 <= j < |sizes| && Covers(sizes[j], desired) ::
         || dist(sizes[k]) < dist(sizes[j])
         || (dist(sizes[k]) == dist(sizes[j]) && Area(sizes[k]) < Area(sizes[j]))
         || (dist(sizes[k]) == dist(sizes[j]) && Area(sizes[k]) == Area(sizes[j]) && k <= j)
  }

  /** There is such a size as soon as one covers the desired one. */
  lemma {:induction false} LeastExists(sizes: seq<Size>, desired: Size, dist: Size -> real) returns (k: nat)
    requires exists i | 0 <= i < |sizes| :: Covers(sizes[i], desired)
    ensures IsLeast(sizes, desired, dist, k)
    decreases |sizes|
  {
    var n := |sizes| - 1;
    if i :| 0 <= i < n && Covers(sizes[i], desired) {
      assert Covers(sizes[..n][i], desired);
      k := LeastExists(sizes[..n], desired, dist);
      assert forall j | 0 <= j < n :: sizes[..n][j] == sizes[j];
      if Covers(sizes[n], desired)
        && (dist(sizes[n]) < dist(sizes[k])
            || (dist(sizes[n]) == dist(sizes[k]) && Area(sizes[n]) < Area(sizes[k]))) {
        k := n;
      }
    } else {
      k := n;
    }
  }

  /** The excess over the desired area, in 32 bits. */
  function Excess(s: Size, desired: Size): int {
    (Area(s) - Area(desired)) % 0x1_0000_0000
  }

  /** The size k that is meant loses to none of those with the same ratio distance and a larger area, although
    * the excesses are compared after wrapping. */
  predicate SurvivesWrapping(sizes: seq<Size>, desired: Size, dist: Size -> real, k: nat)
    requires k < |sizes|
  {
    forall j | 0 <= j < |sizes| && Covers(sizes[j], desired)
        && dist(sizes[j]) == dist(sizes[k]) && Area(sizes[j]) > Area(sizes[k]) ::
      if j < k then Excess(sizes[k], desired) < Excess(sizes[j], desired)
      else Excess(sizes[k], desired) <= Excess(sizes[j], desired)
  }

  /** The chosen size always has the least ratio distance. It is the one that is meant iff that one survives
    * the wrapping; otherwise a larger size of the same ratio distance is chosen. */
  lemma ChosenIsLeastIff(sizes: seq<Size>, desired: Size, dist: Size -> real, i: nat, k: nat)
    requires IsBest(sizes, desired, dist, i) && IsLeast(sizes, desired, dist, k)
    ensures dist(sizes[i]) == dist(sizes[k]) && Area(sizes[i]) >= Area(sizes[k])
    ensures i == k <==> SurvivesWrapping(sizes, desired, dist, k)
    ensures i != k ==> Area(sizes[i]) > Area(sizes[k])
  {
    hide Area, AreaDiff;
    forall j | 0 <= j < |sizes| && Covers(sizes[j], desired)
      ensures AreaDiff(sizes[j], desired) == Excess(sizes[j], desired)
    {
      AreaDiffExact(sizes[j], desired);
    }
    hide Excess, Covers;
  }

  /** When no covering size exceeds the desired area by 2^32 or more, the best size is the one that is meant. */
  lemma BestIsLeast(sizes: seq<Size>, desired: Size, dist: Size -> real, i: nat)
    requires IsBest(sizes, desired, dist, i)
    requires forall s <- sizes :: Covers(s, desired) ==> Area(s) - Area(desired) < 0x1_0000_0000
    ensures IsLeast(sizes, desired, dist, i)
  {
    var k := LeastExists(sizes, desired, dist);
    ChosenIsLeastIff(sizes, desired, dist, i, k);
    forall j | 0 <= j < |sizes| && Covers(sizes[j], desired)
      ensures sizes[j] in sizes && Excess(sizes[j], desired) == Area(sizes[j]) - Area(desired)
    {
      AreaDiffExact(sizes[j], desired);
    }
    hide Area, Excess;
  }

  /** Beyond that bound the comparison of areas fails: a square of 65537 pixels a side is preferred to
    * one of 1000, since its area wraps. */
  lemma WrappedAreaPreferred()
    ensures
      var desired := Size(1, 1);
      var sizes := [Size(1000, 1000), Size(65537, 65537)];
      IsBest(sizes, desired, s => 0.0, 1) && Less(sizes[0], sizes[1])
  {
    var desired, sizes := Size(1, 1), [Size(1000, 1000), Size(65537, 65537)];
    assert Area(sizes[0]) == 1_000_000 && Area(sizes[1]) == 0x1_0002_0001;
    assert AreaDiff(sizes[0], desired) == 999_999 && AreaDiff(sizes[1], desired) == 0x2_0000;
  }

  const FLT_MAX: real := 340282346638528859811704183484516925440.0

  datatype Format = Format(mbusCode: uint32, size: Size)

  predicate IsFirstSupported(codes: seq<uint32>, mbusCodes: seq<uint32>, i: nat) {
    i < |codes| && codes[i] in mbusCodes && forall j | 0 <= j < i :: codes[j] !in mbusCodes
  }

  /** The vector is in the order of operator<, as std::sort leaves it. */
  predicate Sorted(sizes: seq<Size>) {
    forall i, j | 0 <= i < j < |sizes| :: !Less(sizes[j], sizes[i])
  }

  class CameraSensor {
    var mbusCodes: seq<uint32>
    var sizes: seq<Size>

    constructor (mbusCodes: seq<uint32>, sizes: seq<Size>)
      ensures this.mbusCodes == mbusCodes && this.sizes == sizes
    {
      this.mbusCodes, this.sizes := mbusCodes, sizes;
    }

    /** resolution() is a size of the sensor that no other exceeds in area. */
    method Resolution() returns (r: Size)
      requires sizes != [] && Sorted(sizes)
      ensures r in sizes
      ensures forall s <- sizes :: Area(s) <= Area(r) && (Area(s) == Area(r) ==> s.width <= r.width)
    {
      r := sizes[|sizes| - 1];
      forall s <- sizes
        ensures Area(s) <= Area(r) && (Area(s) == Area(r) ==> s.width <= r.width)
      {
        LessIsLexicographic(r, s);
      }
    }

    /** The first acceptable code that the sensor supports, or zero, which getFormat() takes for none. */
    method SelectCode(codes: seq<uint32>) returns (code: uint32)
      ensures
        || (exists i | 0 <= i < |codes| :: IsFirstSupported(codes, mbusCodes, i) && code == codes[i])
        || (code == 0 && forall c <- codes :: c !in mbusCodes)
    {
      for i := 0 to |codes|
        invariant forall j | 0 <= j < i :: codes[j] !in mbusCodes
      {
        if codes[i] in mbusCodes {
          assert IsFirstSupported(codes, mbusCodes, i);
          return codes[i];
        }
      }
      code := 0;
    }

    /** getFormat(): no format without a code, no size when none covers the desired one, else the best. */
    method GetFormat(codes: seq<uint32>, size: Size, dist: Size -> real) returns (format: Format)
      requires forall s <- sizes :: 0.0 <= dist(s) < FLT_MAX
      ensures
        || (exists i | 0 <= i < |codes| :: IsFirstSupported(codes, mbusCodes, i) && format.mbusCode == codes[i])
        || (format.mbusCode == 0 && forall c <- codes :: c !in mbusCodes)
      ensures format.mbusCode == 0 ==> format.size == Size(0, 0)
      ensures format.mbusCode != 0 ==>
        || ((forall s <- sizes :: !Covers(s, size)) && format.size == Size(0, 0))
        || exists i | 0 <= i < |sizes| :: IsBest(sizes, size, dist, i) && format.size == sizes[i]
    {
      var code := SelectCode(codes);
      format := Format(code, Size(0, 0));
      if code == 0 {
        return;
      }
      var bestArea: uint32, bestRatio := 0xFFFF_FFFF, FLT_MAX;
      var best: Option<nat> := None;
      for i := 0 to |sizes|
        invariant best.None? ==> bestRatio == FLT_MAX && forall j | 0 <= j < i :: !Covers(sizes[j], size)
        invariant best.Some? ==>
          && best.value < i && IsBest(sizes[..i], size, dist, best.value)
          && bestRatio == dist(sizes[best.value]) && bestArea == AreaDiff(sizes[best.value], size)
      {
        var sz := sizes[i];
        assert sizes[..i + 1] == sizes[..i] + [sz] && sz in sizes;
        if sz.width < size.width || sz.height < size.height {
          continue;
        }
        var ratioDiff := dist(sz);
        var areaDiff := AreaDiff(sz, size);
        if ratioDiff > bestRatio {
          continue;
        }
        if ratioDiff < bestRatio || areaDiff < bestArea {
          bestRatio, bestArea, best := ratioDiff, areaDiff, Some(i);
        }
      }
      assert sizes[..|sizes|] == sizes;
      if best.None? {
        return;
      }
      format := format.(size := sizes[best.value]);
    }
  }
}
