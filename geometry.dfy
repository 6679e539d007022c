/** Box geometry of the evaluator: inclusive-pixel areas and
    intersection over union. */
module Geometry {
  import opened Results

  /** A box in inclusive pixel coordinates: it covers the pixels
      xMin..xMax by yMin..yMax, both ends included. */
  datatype Box = Box(xMin: int, yMin: int, xMax: int, yMax: int)

  /** What compute_iou returns: the ratio and the two raw pixel counts. */
  datatype IouTriple = IouTriple(iou: real, inter: nat, union: nat)

  /** Pixels in lo..hi, clamped to zero when the range is inverted. */
  function Extent(lo: int, hi: int): nat {
    if hi - lo + 1 > 0 then hi - lo + 1 else 0
  }

  /** compute_box_area: never negative, the product of the two inclusive
      extents when both are non-negative, zero when either is inverted. */
  function Area(b: Box): (r: nat)
    ensures b.xMin <= b.xMax && b.yMin <= b.yMax ==>
              r == (b.xMax - b.xMin + 1) * (b.yMax - b.yMin + 1)
    ensures b.xMax < b.xMin || b.yMax < b.yMin ==> r == 0
    ensures r > 0 <==> b.xMin <= b.xMax && b.yMin <= b.yMax
  {
    Extent(b.xMin, b.xMax) * Extent(b.yMin, b.yMax)
  }

  /** The box that two boxes share (possibly inverted, hence empty). */
  function Intersection(a: Box, b: Box): Box {
    Box(if a.xMin >= b.xMin then a.xMin else b.xMin,
        if a.yMin >= b.yMin then a.yMin else b.yMin,
        if a.xMax <= b.xMax then a.xMax else b.xMax,
        if a.yMax <= b.yMax then a.yMax else b.yMax)
  }

  /** compute_iou. The division inter / union faults exactly when both
      boxes are empty; otherwise the ratio lies in [0, 1] and the two
      counts are bounded by the areas of the boxes. */
  function ComputeIou(a: Box, b: Box): (r: Result<IouTriple>)
    ensures r.Err? <==> Area(a) == 0 && Area(b) == 0
    ensures r.Err? ==> r.error == ZeroDivisionError
    ensures r.Ok? ==>
      && r.value.inter == Area(Intersection(a, b))
      && r.value.inter <= Area(a) && r.value.inter <= Area(b)
      && r.value.union == Area(a) + Area(b) - r.value.inter
      && r.value.union >= Area(a) && r.value.union >= Area(b) && r.value.union > 0
      && r.value.iou == r.value.inter as real / r.value.union as real
      && 0.0 <= r.value.iou <= 1.0
  {
    IouCounts(a, b);
    Divide(Area(Intersection(a, b)), Area(a) + Area(b) - Area(Intersection(a, b)))
  }

  /** The Python division inter / union with both counts recorded. */
  function Divide(inter: nat, union: int): (r: Result<IouTriple>)
    requires inter <= union
    ensures r.Err? <==> union == 0
    ensures r.Err? ==> r.error == ZeroDivisionError
    ensures r.Ok? ==>
      && r.value.inter == inter && r.value.union == union
      && r.value.iou * union as real == inter as real
      && 0.0 <= r.value.iou <= 1.0
  {
    if union == 0 then Err(ZeroDivisionError)
    else
      RatioBounds(inter, union);
      Ok(IouTriple(inter as real / union as real, inter, union))
  }

  /** The union count is at least either area, so it is zero exactly when
      both areas are. */
  lemma IouCounts(a: Box, b: Box)
    ensures Area(Intersection(a, b)) <= Area(a) && Area(Intersection(a, b)) <= Area(b)
    ensures Area(a) + Area(b) - Area(Intersection(a, b)) >= Area(a)
    ensures Area(a) + Area(b) - Area(Intersection(a, b)) >= Area(b)
  {
    IntersectionWithin(a, b);
  }

  lemma RatioBounds(inter: nat, union: nat)
    requires inter <= union && union > 0
    ensures (inter as real / union as real) * union as real == inter as real
    ensures 0.0 <= inter as real / union as real <= 1.0
  {
  }

  lemma MulMonotonic(x: nat, y: nat, x': nat, y': nat)
    requires x <= x' && y <= y'
    ensures x * y <= x' * y'
  {
    assert x * y <= x' * y;
    assert x' * y <= x' * y';
  }

  /** The shared box is no larger than either box. */
  lemma IntersectionWithin(a: Box, b: Box)
    ensures Area(Intersection(a, b)) <= Area(a)
    ensures Area(Intersection(a, b)) <= Area(b)
  {
    var i := Intersection(a, b);
    MulMonotonic(Extent(i.xMin, i.xMax), Extent(i.yMin, i.yMax),
                 Extent(a.xMin, a.xMax), Extent(a.yMin, a.yMax));
    MulMonotonic(Extent(i.xMin, i.xMax), Extent(i.yMin, i.yMax),
                 Extent(b.xMin, b.xMax), Extent(b.yMin, b.yMax));
  }

  /** compute_iou does not depend on the order of its arguments. */
  lemma IouSymmetric(a: Box, b: Box)
    ensures ComputeIou(a, b) == ComputeIou(b, a)
  {
  }

  /** A non-empty box overlaps itself completely. */
  lemma IouSelf(a: Box)
    requires Area(a) > 0
    ensures ComputeIou(a, a) == Ok(IouTriple(1.0, Area(a), Area(a)))
  {
    assert Intersection(a, a) == a;
    RatioBounds(Area(a), Area(a));
    assert Area(a) as real / Area(a) as real == 1.0;
  }

  /** Boxes that share no pixel have IoU zero (when it is defined). */
  lemma IouDisjoint(a: Box, b: Box)
    requires a.xMax < b.xMin || b.xMax < a.xMin || a.yMax < b.yMin || b.yMax < a.yMin
    requires Area(a) > 0 || Area(b) > 0
    ensures ComputeIou(a, b).Ok? && ComputeIou(a, b).value.iou == 0.0
    ensures ComputeIou(a, b).value.inter == 0
  {
  }
}
