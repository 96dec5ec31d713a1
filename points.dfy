/** The survey record of the topography plugin and the count of drawable points. */
module Points {

  /** A double of the source. The model stores coordinates and measures but never computes on them. */
  type Coord = real

  /** TT::PTYPE. The declaration is not part of this model. POINT is assumed to be the first
      enumerator, so the value-initialised type is POINT; the rest follow the branches of
      displayPoint. */
  datatype PType = POINT | STATION | REFERENCE | MEASURE

  /** TT::Point, with its twelve fields in the order loadPoint reads them. */
  datatype Point = Point(
    ptype: PType,
    name: string,
    x: Coord,
    y: Coord,
    hasZ: bool,
    z: Coord,
    ih: Coord,
    v0: Coord,
    ph: Coord,
    ha: Coord,
    va: Coord,
    id: Coord)

  /** The value-initialised `TT::Point point{}`: every number zero, no name, no altitude. This
      assumes TT::Point declares no default member initialisers. */
  const Blank: Point := Point(POINT, "", 0.0, 0.0, false, 0.0, 0.0, 0.0, 0.0, 0.0, 0.0, 0.0)

  /** The number of entries of type POINT. */
  function CountPoints(ps: seq<Point>): (n: nat)
    ensures n <= |ps|
  {
    if ps == [] then 0
    else (if ps[0].ptype == POINT then 1 else 0) + CountPoints(ps[1..])
  }

  /** Every entry is counted exactly when all are of type POINT, and none exactly when no
      entry is. */
  lemma {:induction false} CountPointsAllOrNone(ps: seq<Point>)
    ensures CountPoints(ps) == |ps| <==> forall k :: 0 <= k < |ps| ==> ps[k].ptype == POINT
    ensures CountPoints(ps) == 0 <==> forall k :: 0 <= k < |ps| ==> ps[k].ptype != POINT
  {
    if ps != [] {
      CountPointsAllOrNone(ps[1..]);
      assert forall k :: 1 <= k < |ps| ==> ps[k] == ps[1..][k - 1];
    }
  }

  /** Counting distributes over concatenation. */
  lemma {:induction false} CountPointsAppend(a: seq<Point>, b: seq<Point>)
    ensures CountPoints(a + b) == CountPoints(a) + CountPoints(b)
  {
    if a == [] {
      assert a + b == b;
    } else {
      assert (a + b)[1..] == a[1..] + b;
      CountPointsAppend(a[1..], b);
    }
  }

  /** Counting with the entry at `k` taken out. */
  lemma CountPointsAt(s: seq<Point>, k: nat)
    requires k < |s|
    ensures CountPoints(s) == CountPoints(s[..k] + s[k + 1..]) + (if s[k].ptype == POINT then 1 else 0)
  {
    var a, x, b := s[..k], s[k], s[k + 1..];
    assert a + [x] + b == a + ([x] + b);
    assert ([x] + b)[1..] == b;
    CountPointsAppend(a, [x] + b);
    CountPointsAppend(a, b);
    assert a + [x] + b == s;
  }

  /** The types of a list of points, in order. */
  function Types(ps: seq<Point>): (ts: seq<PType>)
    ensures |ts| == |ps| && forall k :: 0 <= k < |ps| ==> ts[k] == ps[k].ptype
  {
    seq(|ps|, k requires 0 <= k < |ps| => ps[k].ptype)
  }

  /** An independent reading of the count: the multiplicity of POINT among the types. */
  lemma {:induction false} CountPointsIsMultiplicity(ps: seq<Point>)
    ensures CountPoints(ps) == multiset(Types(ps))[POINT]
  {
    if ps != [] {
      CountPointsIsMultiplicity(ps[1..]);
      assert Types(ps) == [ps[0].ptype] + Types(ps[1..]);
    }
  }
}
